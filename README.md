# rola matrices in Dafny

A model of the matrix core of the `rola` crate. It covers four representations of one matrix abstraction and the arithmetic between them:

- **DenseMatrix** (`Dense`) is a flat storage sequence with `m`, `n` and a `ReadOrder` flag.
  - Transposing only flips the flag.
  - `element(i, j)` reads offset `n*i + j` under RowMajor and `m*j + i` under ColMajor.
- **SparseMatrix** (`Sparse`) is a class whose field `entries` is a map from storage coordinates to values.
  - An absent coordinate reads as zero.
  - Under ColMajor the logical cell `(i, j)` lives at key `(j, i)`.
  - `set` and `transpose` update the object in place.
- **IdentityMatrix** (`Identity`) and **ZeroMatrix** (`Zero`) store nothing: every entry is the Kronecker delta or zero.
  - Each has a consuming iterator, modelled as a class with a running `index`.
- **DenseRow / DenseColumn** (`Vectors`) are classes over a fixed-length `array<int>`.
  - `set` overwrites one cell in place.
  - `transpose` hands the same buffer to a vector of the other orientation.
- **The cross-type operators**:
  - `Equality`: every `==` impl between the four representations.
  - `Addition`: Zero + X, Dense + Dense/Identity/Sparse, Identity + Identity.
  - `Multiplication`: products with a Zero or Identity factor, and the inner and outer products of dense vectors.

The element type `T` is `int`. The modules share these definitions:

- `Common` holds `Option`, the construction error `InvalidDimensions` inside `Result`, and `Checked`.
  - `Checked` marks the arithmetic layer's panics: `Abort(DimensionMismatch)` for a dimension check, `Abort(UnsupportedMutation)` for writing to an identity matrix.
- `Index.At(i, j, n) = i*n + j` is the row-major offset. Its arithmetic facts are proved once.
- `Matrix.AnyMatrix` joins the four representations behind one accessor.
  - `Same(a, b)` means equal dimensions and equal entries.
  - `RowTimesCol` is the textbook row-by-column sum.
  - The equality predicates are proved against `Same`, and the shortcut products against `RowTimesCol`.

`Scenarios` restates the crate's unit tests, plus the example program in `examples/macros.rs`, as checked methods. It also holds the inputs behind the findings below.

## Model

| member | source | states |
|---|---|---|
| Common.ReadOrder.Flip | src/dense/dense_matrix.rs:99-105 | flipping the read order always changes it |
| Common.FlipInvolution | src/sparse/sparse_matrix.rs:47-53 | flipping twice gives back the original read order |
| Dense.New | src/dense/dense_matrix.rs:25-48 | `InvalidDimensions` exactly when the row list is empty or some row's length differs from the first row's; otherwise RowMajor storage of length m·n with dims (row count, first-row length) and element (i, j) equal to rows[i][j] |
| Dense.FromVec | src/dense/dense_matrix.rs:54-66 | storage and dims are taken as given; the read order is the one supplied, RowMajor when none |
| Dense.Zeros | src/dense/dense_matrix.rs:70-79 | a RowMajor m×n matrix whose every element is zero |
| Dense.Identity | src/dense/dense_matrix.rs:83-95 | a RowMajor n×n matrix with element (i, j) one exactly when i == j |
| Dense.FlipReadOrder | src/dense/dense_matrix.rs:99-105 | the read order changes, the storage stays, rows and cols swap |
| Dense.Transpose | src/dense/dense_matrix.rs:186-188 | transposing is the read-order flip and nothing else |
| Dense.TransposeInvolution | src/dense/dense_matrix.rs:186-188 | transposing twice gives back the same matrix |
| Dense.TransposeSquare | src/dense/dense_matrix.rs:186-220 | for square storage, the transpose reads at (j, i) what the matrix reads at (i, j) |
| Dense.TransposeNonSquareMisreads | src/dense/dense_matrix.rs:215 | for the row-major 2×3 storage [1, 2, 3, 4, 5, 6] the transpose reads 3 at (0, 1), while the matrix holds 4 at (1, 0) |
| Dense.StorageOffsets | src/dense/dense_matrix.rs:207-220 | every storage-grid offset of a well-formed matrix lies inside the storage |
| Dense.ReadableWhenRowMajorOrSquare | src/dense/dense_matrix.rs:207-220 | when RowMajor or square, every logical `element` read is inside the storage, so the `expect` never fires |
| Dense.CellOf | src/dense/dense_matrix.rs:207-220 | when RowMajor or square, every storage position is the offset of some logical cell |
| Dense.Element | src/dense/dense_matrix.rs:207-220 | as written: `element(i, j)` reads storage offset n·i + j under RowMajor and m·j + i under ColMajor. Its laws are Dense.ReadableWhenRowMajorOrSquare, Dense.TransposeSquare and Dense.TransposeNonSquareMisreads |
| Dense.ElementsRowMajor | src/dense/dense_matrix.rs:224-226 | for a RowMajor matrix `elements` lists element (i, j) at position i·cols + j; transposing does not change what `elements` returns |
| Dense.Elements | src/dense/dense_matrix.rs:224-226 | as written: the raw storage, whatever the read order. Its row-major reading is Dense.ElementsRowMajor |
| Dense.IsDiagonal | src/dense/dense_matrix.rs:122-132 | the nested loops over i < m, j < n answer true iff every `element(i, j)` with i ≠ j reads zero |
| Dense.IsDiagonalLogical | src/dense/dense_matrix.rs:122-132 | when RowMajor or square, `is_diagonal` is true iff every logical off-diagonal element is zero |
| Dense.Trace | src/dense/dense_matrix.rs:174-183 | as written: the sum of storage offsets 0, n+1, 2(n+1), … below m·n |
| Dense.TraceIntended | src/dense/dense_matrix.rs:174-183 | the sum of the storage diagonal i·n + i for i below min(m, n) |
| Dense.DiagonalSumIsDiags | src/dense/dense_matrix.rs:174-183 | for a RowMajor or square matrix the diagonal sum is the sum of the diagonal elements |
| Dense.StrideWalksDiagonal | src/dense/dense_matrix.rs:177-181 | with at most one row more than columns, the stride walk from the diagonal cell k visits exactly the remaining diagonal cells |
| Dense.TraceCorrectUpToOneExtraRow | src/dense/dense_matrix.rs:177-181 | when m ≤ n + 1, the as-written trace equals the diagonal sum |
| Dense.TraceOffDiagonalWithManyRows | src/dense/dense_matrix.rs:177-181 | for the 3×1 matrix [1, 2, 3] the as-written trace is 4, while the diagonal sum is 1 |
| Sparse.InsertedLookup | src/sparse/sparse_matrix.rs:31-43 | after inserting the triples in order, a key is stored iff some triple names it, and it holds the value of the last such triple |
| Sparse.FromTupleGet | src/sparse/sparse_matrix.rs:31-43 | `get` at the coordinate of the last triple naming it returns that triple's value |
| Sparse.SparseMatrix.New | src/sparse/sparse_matrix.rs:20-26 | no stored entries and RowMajor, so every in-range `get` is zero |
| Sparse.SparseMatrix.FromTuple | src/sparse/sparse_matrix.rs:31-43 | the loop builds the map of the triples inserted in order, RowMajor |
| Sparse.SparseMatrix.Get | src/sparse/sparse_matrix.rs:146-162 | None iff i ≥ rows or j ≥ cols; otherwise the value stored at the cell's key, or zero when absent |
| Sparse.SparseMatrix.CellAt | src/sparse/sparse_matrix.rs:146-162 | the logical cell whose value a storage key holds: the key `get` uses for that cell is the key itself |
| Sparse.SparseMatrix.Set | src/sparse/sparse_matrix.rs:164-175 | out of range: None and no change. In range: the value is stored at the cell's key and `Some(val)` is returned; afterwards `get(i, j)` is val and every other cell reads as before. Keys stay inside the grid |
| Sparse.SparseMatrix.Transpose | src/sparse/sparse_matrix.rs:47-53 | the read order flips, entries stay, rows and cols swap, and `get(j, i)` afterwards is `get(i, j)` before |
| Sparse.TransposeTwice | src/sparse/sparse_matrix.rs:128-130 | a double transpose restores read order, entries and every `get` |
| Sparse.SparseMatrix.Trace | src/sparse/sparse_matrix.rs:114-126 | the loop that stops at the first None sums `get(i, i)` over exactly min(rows, cols) positions |
| Sparse.SparseMatrix.Elements | src/sparse/sparse_matrix.rs:177-185 | m·n values, with `get(i, j)` at position i·n + j |
| Sparse.SparseMatrix.IsDiagonal | src/sparse/sparse_matrix.rs:67-72 | as written: true iff every stored key has i == j, whatever value it holds. Its meaning in values is Sparse.IsDiagonalMeansOffDiagonalZero |
| Sparse.IsDiagonalMeansOffDiagonalZero | src/sparse/sparse_matrix.rs:67-72 | a matrix with only diagonal keys reads zero off the diagonal; conversely, if every key is in range, no zero is stored off the diagonal, and every off-diagonal cell reads zero, then every key is diagonal |
| Identity.New | src/sparse/identity_matrix.rs:13-15 | rows and cols are both n |
| Identity.Get | src/sparse/identity_matrix.rs:51-58 | None iff outside n×n; otherwise one when i == j and zero when not |
| Identity.Set | src/sparse/identity_matrix.rs:60-64 | aborts with an unsupported mutation exactly inside the grid; outside it returns None |
| Identity.Transpose | src/sparse/identity_matrix.rs:45 | dims swap and `get(j, i)` of the result is `get(i, j)` |
| Identity.Trace | src/sparse/identity_matrix.rs:41-43 | n, which is the sum of the diagonal |
| Identity.KroneckerRowDot | src/sparse/identity_matrix.rs:21 | the dot product of rows i and j of the identity is one iff i == j |
| Identity.PredicatesAnalytic | src/sparse/identity_matrix.rs:19-39 | for n > 0 each constant predicate answer equals the entrywise property of the identity |
| Identity.EmptyPredicates | src/sparse/identity_matrix.rs:19-39 | for n = 0 the constant answers agree with the vacuous entrywise properties, except strictly lower and strictly upper triangular: the crate answers false, though both hold |
| Identity.DiagonalOffsets | src/sparse/identity_matrix.rs:102-113 | row-major position k of an n×n grid lies on the diagonal iff k mod (n+1) == 0 |
| Identity.IdentityIter.constructor | src/sparse/identity_matrix.rs:79-85 | the iterator starts at index 0 |
| Identity.IdentityIter.Next | src/sparse/identity_matrix.rs:102-113 | index grows by one; Some iff the old index is below n·n; the item is one iff index mod (n+1) == 0, which is `get` of the cell at that row-major position |
| Identity.ElementsIntended | src/sparse/identity_matrix.rs:66-76 | n·n entries, with the delta at row-major position i·n + j |
| Identity.Elements | src/sparse/identity_matrix.rs:66-76 | as written: ones in the first n positions, zeros elsewhere |
| Identity.WrittenElementsMisplaceDiagonal | src/sparse/identity_matrix.rs:71 | for n ≥ 2 the written listing has a one at the off-diagonal cell (0, 1) and a zero at the last diagonal cell |
| Zero.New | src/sparse/zero_matrix.rs:14-16 | rows m and cols n |
| Zero.Element | src/sparse/zero_matrix.rs:52-58 | Some(0) iff i < m and j < n, None otherwise |
| Zero.Transpose | src/sparse/zero_matrix.rs:44-46 | dims swap and `element(j, i)` of the result is `element(i, j)` |
| Zero.TransposeInvolution | src/sparse/zero_matrix.rs:44-46 | transposing twice gives back the same matrix |
| Zero.Trace | src/sparse/zero_matrix.rs:42 | zero, which is the sum of the diagonal |
| Zero.Elements | src/sparse/zero_matrix.rs:60-62 | m·n zeros, one per cell |
| Zero.NoughtRowDot | src/sparse/zero_matrix.rs:22 | every row dot product of a zero matrix is zero |
| Zero.PredicatesAnalytic | src/sparse/zero_matrix.rs:20-40 | for a matrix that is not 0×0, each predicate answer equals the entrywise property of the zero matrix |
| Zero.EmptyPredicates | src/sparse/zero_matrix.rs:20-40 | for the 0×0 matrix the answers agree with the vacuous entrywise properties, except orthogonal, unilower and uniupper triangular: the crate answers false, though all three hold |
| Zero.ZeroIter.constructor | src/sparse/zero_matrix.rs:65-71 | the iterator starts at index 0 |
| Zero.ZeroIter.Next | src/sparse/zero_matrix.rs:89-96 | index grows by one; Some(0) iff the old index is below m·n |
| Vectors.DenseRow.Zeros | src/dense/dense_vector.rs:12-14 | a fresh buffer of the given size, every `get` zero |
| Vectors.DenseRow.FromVec | src/dense/dense_vector.rs:16-18 | a fresh buffer holding the values in order |
| Vectors.DenseRow.Get | src/dense/dense_vector.rs:28-33 | Some(element i) iff i < len |
| Vectors.DenseRow.Set | src/dense/dense_vector.rs:35-40 | in range only position i changes and `Some(val)` is returned; out of range None and no change; len never changes |
| Vectors.DenseRow.Transpose | src/dense/dense_vector.rs:24-26 | a column over the same buffer, with the same len and every `get` |
| Vectors.DenseRow.Len | src/dense/dense_vector.rs:42-44 | the buffer length; Vectors.DenseRow.Set keeps it |
| Vectors.DenseColumn.Zeros | src/dense/dense_vector.rs:59-61 | a fresh buffer of the given size, every `get` zero |
| Vectors.DenseColumn.FromVec | src/dense/dense_vector.rs:63-65 | a fresh buffer holding the values in order |
| Vectors.DenseColumn.Get | src/dense/dense_vector.rs:82-87 | Some(element i) iff i < len |
| Vectors.DenseColumn.Set | src/dense/dense_vector.rs:75-80 | in range only position i changes and `Some(val)` is returned; out of range None and no change; len never changes |
| Vectors.DenseColumn.Transpose | src/dense/dense_vector.rs:71-73 | a row over the same buffer, with the same len and every `get` |
| Vectors.DenseColumn.Len | src/dense/dense_vector.rs:89-91 | the buffer length; Vectors.DenseColumn.Set keeps it |
| Vectors.TransposeRowTwice | src/dense/dense_vector.rs:24-26 | row → column → row ends on the original buffer, reading the same values |
| Equality.ZeroEqZero | src/ops/eq.rs:7-9 | as written: equal dims. Its meaning is Equality.StructuralEqMeansSame |
| Equality.IdentityEqIdentity | src/ops/eq.rs:15-17 | as written: equal dims. Its meaning is Equality.StructuralEqMeansSame |
| Equality.ZeroEqIdentity | src/ops/eq.rs:88 | as written: always false; see Equality.ZeroIsNotIdentity |
| Equality.IdentityEqZero | src/ops/eq.rs:116 | as written: always false; see Equality.ZeroIsNotIdentity |
| Equality.DenseEqDense | src/ops/eq.rs:24-34 | as written: equal dims and every element equal. Its meaning is Equality.DenseEqDenseMeansSame |
| Equality.DenseEqIdentity | src/ops/eq.rs:41-48 | as written: equal dims, `is_diagonal`, and every diagonal entry one. Its meaning is Equality.DenseEqIdentityMeansSame |
| Equality.IdentityEqDense | src/ops/eq.rs:55-62 | as written, in the other argument order; Equality.DenseEqIdentityMeansSame shows the two agree |
| Equality.DenseEqZero | src/ops/eq.rs:69-72 | as written: equal dims and every stored value zero. Its meaning is Equality.DenseEqZeroMeansSame |
| Equality.ZeroEqDense | src/ops/eq.rs:79-82 | as written, in the other argument order; Equality.DenseEqZeroMeansSame shows the two agree |
| Equality.ZeroEqSparse | src/ops/eq.rs:94-97 | as written: equal dims and every stored value zero. Its meaning is Equality.ZeroEqSparseMeansSame |
| Equality.SparseEqZero | src/ops/eq.rs:187-193 | as written: equal dims and every value of `elements` zero; Equality.ZeroSparseSymmetric shows it agrees with Zero == Sparse |
| Equality.IdentityEqSparse | src/ops/eq.rs:103-110 | as written: equal dims, `is_diagonal`, and `element(i, i)` one for every i. Its meaning is Equality.SparseEqIdentityMeansSame |
| Equality.SparseEqIdentity | src/ops/eq.rs:174-181 | as written: equal dims, `is_diagonal`, and every value of `diags` one; Equality.SparseEqIdentityMeansSame shows it agrees with Identity == Sparse |
| Equality.SparseEqDense | src/ops/eq.rs:140-150 | as written: equal dims and every element equal. Its meaning is Equality.SparseEqDenseMeansSame |
| Equality.DenseEqSparse | src/ops/eq.rs:157-167 | as written, in the other argument order; Equality.SparseEqDenseMeansSame shows the two agree |
| Equality.SparseEqSparse | src/ops/eq.rs:123-133 | as written: equal dims, equal stored-key counts, and `element` equal at the keys paired by zipping the two iteration orders, which are parameters |
| Equality.StructuralEqMeansSame | src/ops/eq.rs:7-17 | Zero == Zero and Identity == Identity hold iff the dims match, which is iff they are the same matrix; both are symmetric |
| Equality.ZeroIsNotIdentity | src/ops/eq.rs:88 | Zero vs Identity is false in both orders, although the two are the same matrix when everything is 0×0 |
| Equality.DenseEqDenseMeansSame | src/ops/eq.rs:24-34 | Dense == Dense iff same dims and every element agrees, i.e. the same matrix; symmetric |
| Equality.DenseEqIdentityMeansSame | src/ops/eq.rs:41-62 | dims match, `is_diagonal` holds and the diagonal is all ones, iff the dense matrix is the identity; the two argument orders agree |
| Equality.DenseEqZeroMeansSame | src/ops/eq.rs:69-82 | when RowMajor or square: all stored elements zero with matching dims iff the dense matrix is the zero matrix; the two orders agree |
| Equality.ZeroSparseSymmetric | src/ops/eq.rs:94-97 | with keys in range, Zero == Sparse (stored values all zero) agrees with Sparse == Zero (every element zero) |
| Equality.ZeroEqSparseMeansSame | src/ops/eq.rs:94-97 | with keys in range, Zero == Sparse iff the sparse matrix is the zero matrix |
| Equality.SparseEqIdentityMeansSame | src/ops/eq.rs:103-110 | the two orders agree; equality implies the same matrix; the converse holds when keys are in range and no zero is stored off the diagonal |
| Equality.SparseEqDenseMeansSame | src/ops/eq.rs:140-167 | Sparse == Dense iff same dims and every element agrees, i.e. the same matrix; the two orders agree |
| Equality.SparseEqSparseSameOrder | src/ops/eq.rs:123-133 | with the same keys, both RowMajor and both maps iterated in the same order, Sparse == Sparse iff the same matrix |
| Equality.SparseEqSparseMisreadsColMajor | src/ops/eq.rs:128-130 | two transposed 2×2 matrices storing 5 and 7 under the key (0, 1) compare equal, although they read 5 and 7 at (1, 0) |
| Equality.SparseEqSparseCountsStoredZeros | src/ops/eq.rs:125-127 | a 1×1 matrix storing an explicit zero and an empty 1×1 matrix are the same matrix but compare unequal |
| Equality.SparseEqSparseIntended | src/ops/eq.rs:123-133 | corrected: equal dims, and every stored entry of either matrix, read at its logical cell, agrees with the other matrix there |
| Equality.SparseEqSparseIntendedMeansSame | src/ops/eq.rs:123-133 | with keys in range, the corrected comparison holds iff the two are the same matrix, for any read orders and stored zeros; it is symmetric |
| Addition.ZeroAdd | src/ops/add.rs:20-45 | Zero + X aborts iff the dims differ; otherwise it returns X |
| Addition.ZeroAddIsSum | src/ops/add.rs:28-45 | what Zero + X returns is the entrywise sum of the operands |
| Addition.SumListing | src/ops/add.rs:92-97 | the push loop lists a(i, j) + x(i, j) at position i·cols + j |
| Addition.DenseAddDense | src/ops/add.rs:90-99 | aborts iff the dims differ; otherwise a RowMajor matrix of the same dims whose element (i, j) is a(i, j) + b(i, j) |
| Addition.DenseAddIdentity | src/ops/add.rs:108-122 | as written: aborts iff the dims differ; otherwise the lhs read order is kept. Element (i, j) is a(i, j) + δ(i, j) for a RowMajor lhs and a(j, i) + δ(i, j) for a ColMajor one |
| Addition.DenseAddIdentityIntended | src/ops/add.rs:108-122 | the sum read row by row: element (i, j) is a(i, j) + δ(i, j) for either read order |
| Addition.DenseAddSparse | src/ops/add.rs:131-141 | as written: aborts iff the dims differ; the storage lists a(i, j) + s(i, j) row by row under the lhs read order. Dims are kept for a RowMajor lhs and swapped for a ColMajor one |
| Addition.DenseAddSparseIntended | src/ops/add.rs:131-141 | the sum read row by row: same dims, element (i, j) is a(i, j) + s(i, j) |
| Addition.IdentityAddIdentity | src/ops/add.rs:150-158 | aborts iff the sizes differ; otherwise a fresh n×n sparse matrix whose keys are exactly the n diagonal cells, each reading 1 + 1 |
| Multiplication.ZeroTimes | src/ops/mul.rs:19-67 | Zero × X aborts unless lhs.cols == rhs.rows; otherwise Zero(lhs.rows, rhs.cols) |
| Multiplication.TimesZero | src/ops/mul.rs:42-53 | X × Zero aborts unless lhs.cols == rhs.rows; otherwise Zero(lhs.rows, rhs.cols) |
| Multiplication.ZeroRowTimesCol | src/ops/mul.rs:36-39 | a row of a zero matrix times any column sums to zero |
| Multiplication.RowTimesZeroCol | src/ops/mul.rs:49-52 | any row times a column of a zero matrix sums to zero |
| Multiplication.ZeroTimesIsProduct | src/ops/mul.rs:27-67 | what Zero × X returns is the matrix product, entry by entry |
| Multiplication.TimesZeroIsProduct | src/ops/mul.rs:42-53 | what X × Zero returns is the matrix product, entry by entry |
| Multiplication.IdentityTimes | src/ops/mul.rs:71-84 | Identity × X aborts unless the sizes are compatible; otherwise it returns X |
| Multiplication.TimesIdentity | src/ops/mul.rs:86-97 | X × Identity aborts unless the sizes are compatible; otherwise it returns X |
| Multiplication.IdentityRowTimesCol | src/ops/mul.rs:80-83 | row i of the identity times column j of X picks X(i, j) |
| Multiplication.RowTimesIdentityCol | src/ops/mul.rs:93-96 | row i of X times column j of the identity picks X(i, j) |
| Multiplication.IdentityTimesIsProduct | src/ops/mul.rs:71-84 | what Identity × X returns is the matrix product, entry by entry |
| Multiplication.TimesIdentityIsProduct | src/ops/mul.rs:86-97 | what X × Identity returns is the matrix product, entry by entry |
| Multiplication.IdentityTimesIdentity | src/ops/mul.rs:101-110 | the result has the left operand's size, with no dimension check |
| Multiplication.IdentityTimesIdentityIsProduct | src/ops/mul.rs:101-110 | for equal sizes the left operand is the product; for unequal sizes it is still returned and nothing aborts |
| Multiplication.DotCommutative | src/ops/mul.rs:115-131 | the inner product does not depend on the order of its factors |
| Multiplication.InnerProduct | src/ops/mul.rs:115-131 | aborts iff the lengths differ; otherwise the accumulated sum of row[i]·col[i] |
| Multiplication.OuterProduct | src/ops/mul.rs:135-152 | a RowMajor col.len × row.len matrix with element (i, j) = col[i]·row[j] |
| Multiplication.OuterDiagonalSum | src/ops/mul.rs:135-152 | the diagonal of an outer product from position k sums to the inner product of the tails |
| Multiplication.OuterTraceIsInner | src/ops/mul.rs:115-152 | the trace of the outer product of two equal-length vectors is their inner product, by the diagonal sum and by the as-written stride trace |

## Left out

- The OpenCL handler and GPU kernels: foreign calls with no logic of their own.
- `vector_i` and the `Vector<T>` add/sub/mul impls: the struct definitions are broken, and the multiply scales by an `f32`.
- The `Matrix` trait in `src/matrix.rs`: it is signature-only and disagrees with its impls. The shared accessor is `Matrix.AnyMatrix` instead.
- The TODO predicates of the dense and sparse matrices: they return `false` unconditionally. The trait-only predicates (Hermitian, positive definite) have no implementation.
- `IntoIterator` for the dense and sparse matrices: both iterators are broken and are not modelled. The identity and zero iterators are modelled.
- `Display`/`fmt` impls: text output only.
- `Rc<RefCell<…>>` and `Cell` sharing: the sparse map and the vector buffers have a single owner. Transposing a vector hands its buffer to the new vector, as the consuming `transpose` does.
- Overflow: `T` and `usize` are unbounded integers, so no wrap-around or overflow panic is modelled.
- General Dense × Dense and Sparse products, and Identity + Sparse, do not exist in the source. Identity + Sparse is commented out there.
- Accessors that the operators call but the source does not define are modelled as follows:
  - `diags()` is modelled as `get(i, i)` for i below min(rows, cols).
  - A dense `get`, called in `add.rs`, is modelled as `element` inside the grid.
  - A sparse `element`, called at `eq.rs:107`, `:130`, `:144` and `:161`, is modelled as the sparse `get`. `SparseMatrix` defines only `get`, at `src/sparse/sparse_matrix.rs:146`.
- `IdentityMatrix::new` initialises a field `m` that the struct does not have. It is modelled as the evident `n`.
- Equality.SparseEqSparseSameOrder: the link between the as-written Sparse == Sparse and `Same` is proved only under three conditions:
  - both operands are RowMajor;
  - they hold the same key set;
  - both maps are iterated in the same order.

  The result depends on the iteration orders of two hash maps, so these orders are parameters. Outside these conditions the as-written comparison misjudges: see the Sparse == Sparse finding.
- Dense.TransposeSquare: the transpose law is proved only for square storage. For other shapes `element`'s column-major offset m·j + i reads other cells, as Dense.TransposeNonSquareMisreads shows.
- Dense.ElementsRowMajor: the row-major reading of `elements` is proved only for RowMajor matrices. `elements` returns the raw storage whatever the read order.
- Equality.DenseEqZeroMeansSame: proved for RowMajor or square matrices, where every storage cell is a logical cell.
- Equality.SparseEqIdentityMeansSame: the converse needs no stored zero off the diagonal, because `is_diagonal` looks at stored keys rather than values. Scenarios.StoredZeroIsNotDiagonal exhibits this.
- Identity.PredicatesAnalytic: the 0×0 identity is excluded, because there the crate answers `false` for strictly lower and strictly upper triangular, while both properties hold vacuously. The other nine answers agree with the vacuous properties. Identity.EmptyPredicates states both halves.
- Zero.PredicatesAnalytic: the 0×0 zero matrix is excluded, because there the crate answers `false` for orthogonal, unilower and uniupper triangular, while all three hold vacuously. The other eight answers agree with the vacuous properties. Zero.EmptyPredicates states both halves.
- Sparse.SparseMatrix.Elements: requires a RowMajor, square or empty matrix. Otherwise the walk over raw rows 0..m and columns 0..n unwraps a None and panics.

## Findings

| source | as written | input that shows it | evidently intended | confidence | as-written member | corrected member |
|---|---|---|---|---|---|---|
| src/dense/dense_matrix.rs:177-181 | `trace` sums storage offsets 0, n+1, 2(n+1), … below m·n | the 3×1 matrix [1, 2, 3] gives 4 | the sum of the diagonal cells i·n + i for i below min(m, n), here 1 | not executed | Dense.Trace, Dense.TraceOffDiagonalWithManyRows | Dense.TraceIntended, Dense.DiagonalSumIsDiags |
| src/sparse/identity_matrix.rs:71 | `elements` writes the one for row i at `v[i]` | n = 2 gives [1, 1, 0, 0] | ones at the diagonal offsets i·n + i: [1, 0, 0, 1] | not executed | Identity.Elements, Identity.WrittenElementsMisplaceDiagonal | Identity.ElementsIntended |
| src/ops/add.rs:120-121 | Dense + Identity lists the sum row by row but tags it with the lhs read order | the ColMajor 2×2 matrix stored as [1, 2, 3, 4] plus eye(2) reads 2 at (0, 1) instead of 3 (Scenarios.ColumnMajorPlusIdentity) | the row-major listing read row by row | not executed | Addition.DenseAddIdentity | Addition.DenseAddIdentityIntended |
| src/ops/add.rs:139-140 | Dense + Sparse lists the sum row by row but tags it with the lhs read order | a ColMajor dense matrix with 3 rows and 2 columns plus a 3×2 sparse matrix gives a result with 2 rows and 3 columns (Scenarios.ColumnMajorPlusSparse) | the row-major listing read row by row, with the operands' dims | not executed | Addition.DenseAddSparse | Addition.DenseAddSparseIntended |
| src/ops/eq.rs:125-130 | Sparse == Sparse compares stored-key counts, then `element` at keys paired by zipping two hash-map iterations, reading each key as a logical coordinate | two 2×2 matrices built from (0, 1, 5) and (0, 1, 7) and both transposed compare equal, yet read 5 and 7 at (1, 0) (Scenarios.SparseEqualityMisreadsTransposes). A stored zero makes the counts differ for the same matrix | equal iff the same matrix, whatever the read orders, stored zeros and iteration orders | not executed | Equality.SparseEqSparse, Equality.SparseEqSparseMisreadsColMajor, Equality.SparseEqSparseCountsStoredZeros | Equality.SparseEqSparseIntended, Equality.SparseEqSparseIntendedMeansSame |
