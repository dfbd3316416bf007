# Dynamic vector and square matrix, modelled in Dafny

This project models `include/tmatrix.h`, a header-only C++ library of two
class templates, with the element type fixed to mathematical `int`:

- `TDynamicVector<T>` is a fixed-size vector that owns a heap buffer. It has
  a sized constructor with two size checks, a constructor from a raw array,
  deep copy, move, and copy and move assignment. It also has unchecked `[]`,
  checked `at`, `==` and `!=`, scalar `+ - *`, vector `+ -`, the dot product
  and `swap`.
- `TDynamicMatrix<T>` is a square matrix. It is privately derived from a
  vector of row vectors. It adds its own constructor, `==` and `!=`,
  matrix×vector, `+`, `-` and the triple-loop product.

Modules:

- `Outcomes` (`outcomes.dfy`) holds the four error kinds and the `Result`
  type that stands in for a thrown exception.
- `Vectors` (`vectors.dfy`) holds `Vec = Vec(elems) | MovedFrom`.
  `MovedFrom` is the size-0, null-buffer state a move leaves behind. This
  module has every vector operation.
- `VectorLaws` (`vector_laws.dfy`) holds the properties that relate vector
  operations: sizing edge cases, move and copy, the round trips, and the
  algebra of the dot product.
- `Matrices` (`matrices.dfy`) holds `Matrix`, a row buffer
  `Grid(rows: seq<Vec>)` whose order lies in `[1, MAX_MATRIX_SIZE)`. That is
  true of every matrix object the constructor, copies and arithmetic
  produce. Rows may be replaced one by one and are not re-checked, so
  squareness is a predicate (`Square`) and not part of the type. Each
  operation states what it does on jagged rows as well.
- `MatrixLaws` (`matrix_laws.dfy`) holds the constructor edge cases, shape
  preservation, the self-assignment defect, and the product against the
  identity and a worked example.

`size_t` is the subset type `SizeT` (below 2^64). `ToSizeT` writes out the
wrap-around of a negative argument, which is why `TDynamicVector<int>(-5)`
and `at(-5)` are rejected as too large. Unchecked indexing out of range is
undefined behaviour in C++, so it appears as a `requires`. So do the
product's reads of `a[i][k]` and `b[k][j]`, collected in
`Matrices.ProductDefined`.

Behaviours of the code worth noting:

- Move assignment skips the move when the target equals the source by value
  (include/tmatrix.h:72). It does not compare identity. A distinct source of
  equal value therefore keeps its buffer (`VectorLaws.MoveAssignSkipsEqualSource`).
- The constructor from a raw array performs no size check at all.
- The matrix constructor runs the vector checks of its base class first,
  then its own ceiling. Both are reported as `SizeTooLarge`.
- The product takes its column bound from `b`'s first row
  (include/tmatrix.h:273). Columns past that bound keep the zero the result
  was built with.

## Model

| member | source | states |
|---|---|---|
| Vectors.ToSizeT | test/test_tvector.cpp:15-18 | a non-negative argument below 2^64 is kept; a negative one becomes itself plus 2^64 |
| Vectors.Size | include/tmatrix.h:80 | a moved-from vector reports size 0; a vector that owns a buffer reports its length |
| Vectors.New | include/tmatrix.h:26-33 | succeeds iff 0 < size < MAX_VECTOR_SIZE; size 0 gives InvalidSize, sizes at or above the ceiling give SizeTooLarge; on success the vector has exactly that size, owns a buffer and every element is 0 |
| Vectors.DefaultVec | include/tmatrix.h:26 | the default argument `size = 1` gives an owned one-element zero vector, the one `New(1)` builds |
| Vectors.FromArray | include/tmatrix.h:34-39 | with no size check, the vector owns a buffer of size `s` holding the first `s` array elements; reading past the array is excluded by the precondition |
| Vectors.Copy | include/tmatrix.h:40-47 | the copy owns a buffer (even when the source is moved-from), has the source's size and equals it |
| Vectors.CopyAssignAsWritten | include/tmatrix.h:59-69 | takes the source's size, whatever the target's was; for distinct objects the target then equals the source; for self-assignment the contents are whatever the fresh buffer held |
| Vectors.CopyAssign | include/tmatrix.h:59-69 | with the identity guard, the target equals the source and has its size in every case, and self-assignment changes nothing |
| Vectors.MoveConstruct | include/tmatrix.h:48-54 | the new object equals the source and has its size; the source is left with size 0 and a null buffer |
| Vectors.MoveAssign | include/tmatrix.h:70-78 | afterwards the target equals the old source, and is identical to it when both own buffers; when the two were already equal nothing changes, otherwise the source is left at size 0 with a null buffer |
| Vectors.Swap | include/tmatrix.h:167-171 | each side ends with the other's size and elements |
| Vectors.Index | include/tmatrix.h:84-91 | reading through `[]` at an index below the size needs an owned buffer and yields one of its elements |
| VectorLaws.SetOwnValueIsNoOp | include/tmatrix.h:84-91 | writing back through `[]` the value just read leaves the vector unchanged |
| Vectors.Set | include/tmatrix.h:84-87 | writing through `[]` changes exactly the addressed element and keeps the size |
| Vectors.At | include/tmatrix.h:93-106 | returns the element iff 0 < ind < size, otherwise IndexOutOfRange; index 0 is always rejected |
| Vectors.AtFromZero | include/tmatrix.h:93-106 | the intended accessor: returns the element iff ind < size, otherwise IndexOutOfRange |
| Vectors.Equal | include/tmatrix.h:109-115 | the early-exit loop answers true iff sizes and all elements agree |
| Vectors.NotEqual | include/tmatrix.h:116-122 | the separate `!=` loop answers exactly the negation of value equality |
| Vectors.AddScalar | include/tmatrix.h:125-130 | never fails; same size, element i is v[i] + val |
| Vectors.SubScalar | include/tmatrix.h:131-136 | never fails; same size, element i is v[i] - val |
| Vectors.MulScalar | include/tmatrix.h:137-142 | never fails; same size, element i is val * v[i] |
| Vectors.Add | include/tmatrix.h:145-151 | SizeMismatch iff sizes differ; otherwise same size, elementwise sum |
| Vectors.Sub | include/tmatrix.h:152-158 | SizeMismatch iff sizes differ; otherwise same size, elementwise difference |
| Vectors.SumProducts | include/tmatrix.h:162-163 | the accumulator of the dot-product loop after n steps, starting from 0; its value is characterised by `Vectors.SumProductsIsSigma` and the `VectorLaws` lemmas about it |
| Vectors.SigmaAppend | include/tmatrix.h:162-163 | appending one pair of elements adds their product to the sum |
| Vectors.SumProductsIsSigma | include/tmatrix.h:162-163 | after n steps the accumulator, started at 0, holds the sum of x[i]·y[i] over the first n positions |
| Vectors.Dot | include/tmatrix.h:159-165 | SizeMismatch iff sizes differ; otherwise the sum of a[i]·b[i] over all positions |
| VectorLaws.NegativeSizeIsTooLarge | test/test_tvector.cpp:15-18 | a negative size argument wraps and is rejected as too large, not as zero |
| VectorLaws.SizeBoundaries | include/tmatrix.h:28-31 | 0, the ceiling and the ceiling plus one are rejected; the ceiling minus one is accepted with that size |
| VectorLaws.AtRejectsZeroAndNegative | include/tmatrix.h:100-106 | `at(0)` fails on every vector and `at` of a wrapped negative index fails; the intended accessor returns element 0 of a non-empty vector |
| VectorLaws.AtRefinesAtFromZero | include/tmatrix.h:93-106 | where `at` answers it agrees with the intended accessor; they disagree exactly on index 0 of a non-empty vector |
| VectorLaws.EqIsPositionwise | include/tmatrix.h:109-115 | value equality holds iff sizes are equal and every position holds equal elements |
| VectorLaws.MovedFromEqualsEmptyCopy | include/tmatrix.h:40-54 | a moved-from vector equals its copy by value, although only the copy owns a buffer |
| VectorLaws.SelfMoveAssignIsNoOp | include/tmatrix.h:70-72 | `v = std::move(v)` leaves the vector as it was |
| VectorLaws.MoveAssignSkipsEqualSource | include/tmatrix.h:72 | moving a distinct but equal one-element vector leaves the source at size 1 instead of 0 |
| VectorLaws.MoveAssignAgreesWithMoveConstruct | include/tmatrix.h:48-78 | the target of a move assignment equals what move construction would produce |
| VectorLaws.SwapTwiceRestores | include/tmatrix.h:167-171 | swapping twice restores both vectors |
| VectorLaws.SelfCopyAssignLosesContents | include/tmatrix.h:59-69 | `v = v` as written can turn [1] into [0]; with the identity guard it stays [1] |
| VectorLaws.ScalarAddSubRoundTrip | include/tmatrix.h:125-136 | adding a scalar and subtracting it gives a vector equal to the original |
| VectorLaws.MulScalarOne | include/tmatrix.h:137-142 | scaling by 1 gives a vector equal to the original |
| VectorLaws.AddSubRoundTrip | include/tmatrix.h:145-158 | for equal sizes, (a + b) - b succeeds and equals a |
| VectorLaws.AddCommutes | include/tmatrix.h:145-151 | a + b and b + a give the same result, errors included |
| VectorLaws.SumProductsCommutes | include/tmatrix.h:162-163 | the accumulator is symmetric in its two operands |
| VectorLaws.DotCommutes | include/tmatrix.h:159-165 | a * b == b * a, errors included |
| VectorLaws.SumProductsAddLeft | include/tmatrix.h:162-163 | the accumulator is additive in its first operand |
| VectorLaws.DotAddLeft | include/tmatrix.h:145-165 | (a + b) * c == a * c + b * c for one size |
| VectorLaws.SumProductsScaleLeft | include/tmatrix.h:162-163 | a constant factor of the first operand comes out of the accumulator |
| VectorLaws.DotScaleLeft | include/tmatrix.h:137-165 | (k a) * b == k (a * b) |
| VectorLaws.SumProductsZeroLeft | include/tmatrix.h:162-163 | accumulating against all zeros gives the starting value 0 |
| VectorLaws.SumProductsPrefix | include/tmatrix.h:162-163 | the first n steps of the accumulator read only the first n elements |
| VectorLaws.DotWithNewIsZero | include/tmatrix.h:26-33 | a freshly constructed vector dotted with any vector of its size gives 0 |
| VectorLaws.SumProductsUnit | include/tmatrix.h:162-163 | accumulating against the j-th unit sequence picks out element j, or gives 0 if j is not reached |
| VectorLaws.DotExample | test/test_tvector.cpp:262-277 | [0,2,4,6,8] * [0,1,2,3,4] is 60 |
| Matrices.InstallZeroRows | include/tmatrix.h:204-205 | the constructor's row loop turns every default one-zero row into a zero row of length n, including n = 1 where the move is skipped |
| Matrices.Order | include/tmatrix.h:213 | the re-exported `size()` of the row vector: the number of rows, which for a `Matrix` lies in [1, MAX_MATRIX_SIZE) by its type |
| Matrices.New | include/tmatrix.h:197-206 | succeeds iff 0 < s < MAX_MATRIX_SIZE; 0 gives InvalidSize, too large gives SizeTooLarge; on success exactly s rows, each of length s, all zero |
| Matrices.Equal | include/tmatrix.h:218-224 | answers true iff orders agree and every row equals the other's by value |
| Matrices.NotEqual | include/tmatrix.h:226-232 | answers exactly the negation of matrix value equality |
| Matrices.Copy | include/tmatrix.h:40-47 | the copy equals the source row by row and stays square if the source was |
| Matrices.CopyAssignAsWritten | include/tmatrix.h:59-69 | takes the source's order; for distinct objects the target then equals the source; for self-assignment every row is left with exactly one element |
| Matrices.CopyAssign | include/tmatrix.h:59-69 | with the identity guard, the target equals the source, keeps its shape, and self-assignment changes nothing |
| Matrices.At | include/tmatrix.h:93-106 | returns row ind iff 0 < ind < order, otherwise IndexOutOfRange |
| Matrices.SetRow | include/tmatrix.h:84-87 | replaces only row i with a copy of v; a square matrix stays square iff v has the order's length |
| Matrices.RowDots | include/tmatrix.h:247-248 | fails iff some remaining row's size differs from the vector's; otherwise each remaining entry is that row's dot product with the vector |
| Matrices.MulVec | include/tmatrix.h:243-250 | SizeMismatch iff the order differs from the vector's size or some row does; otherwise an order-length vector whose entry i is row i times the vector |
| Matrices.CombineRows | include/tmatrix.h:257-264 | fails iff some remaining pair of rows differ in size; otherwise each remaining row is the rows' sum or difference |
| Matrices.Add | include/tmatrix.h:253-259 | SizeMismatch iff orders differ or some pair of rows does; otherwise row i is the vector sum of the rows i |
| Matrices.Sub | include/tmatrix.h:260-266 | SizeMismatch iff orders differ or some pair of rows does; otherwise row i is the vector difference of the rows i |
| Matrices.Product | include/tmatrix.h:267-283 | reference product from rows times columns: SizeMismatch iff orders differ, otherwise a square matrix of the same order |
| Matrices.AccumulateEntry | include/tmatrix.h:274-278 | the innermost loop leaves entry j of the row equal to row i of a accumulated against column j of b, and changes no other entry |
| Matrices.Mul | include/tmatrix.h:267-283 | the triple loop (column bound from b's first row, accumulator restarted at 0 for each entry) computes exactly the row-by-column reference product |
| MatrixLaws.NegativeOrderIsTooLarge | test/test_tmatrix.cpp:15-18 | a negative order wraps and is rejected as too large |
| MatrixLaws.OrderBoundaries | include/tmatrix.h:197-202 | 0 and orders at or above MAX_MATRIX_SIZE are rejected, though the latter pass the base-class check; the order just below is accepted |
| MatrixLaws.OrderOneSkipsRowMove | include/tmatrix.h:197-206 | for order 1 the row move is skipped because the rows compare equal, and the result is still the 1x1 zero matrix |
| MatrixLaws.EqNeedsSameOrder | include/tmatrix.h:218-224 | matrices of different orders are unequal; equality is symmetric |
| MatrixLaws.SelfCopyAssignBreaksShape | test/test_tmatrix.cpp:92-98 | `m = m` as written leaves a square matrix of order 2 or more non-square and unequal to what it was; with the identity guard it is unchanged |
| MatrixLaws.SquareProductDefined | include/tmatrix.h:267-283 | square operands meet every bound the product loop relies on |
| MatrixLaws.AddSquare | include/tmatrix.h:253-259 | square operands of one order add without error to a square matrix, entry by entry |
| MatrixLaws.SubSquare | include/tmatrix.h:260-266 | square operands of one order subtract without error to a square matrix, entry by entry |
| MatrixLaws.AddSubRoundTrip | include/tmatrix.h:253-266 | (a + b) - b is exactly a for square operands of one order |
| MatrixLaws.RowAddSubRoundTrip | include/tmatrix.h:145-158 | for an owned row and a vector of its size, adding and then subtracting the vector gives the row back exactly |
| MatrixLaws.WrongSizeRowBreaksShape | test/test_tmatrix.cpp:64-74 | storing a row of the wrong length makes the matrix non-square, and matrix×vector then fails |
| MatrixLaws.MulVecIdentity | include/tmatrix.h:243-250 | the identity matrix times any vector of its order equals that vector |
| MatrixLaws.MulVecExample | include/tmatrix.h:243-250 | [[1,0],[0,1]] times [7,9] is [7,9] |
| MatrixLaws.EmptyFirstRowGivesZeroProduct | include/tmatrix.h:267-283 | when `b`'s first row is empty the column loop never runs, so the product is defined for rows of `a` of any length and is the square zero matrix |
| MatrixLaws.SquareProductEntries | include/tmatrix.h:267-283 | for square operands each product entry is the full accumulation of row i against column j |
| MatrixLaws.ProductIdentityRight | include/tmatrix.h:267-283 | a * I == a for every square matrix |
| MatrixLaws.ProductIdentityLeft | include/tmatrix.h:267-283 | I * a == a for every square matrix |
| MatrixLaws.ProductExample | include/tmatrix.h:267-283 | [[1,2],[3,4]] times [[5,6],[7,8]] is [[19,22],[43,50]] |

## Left out

- Stream input and output (include/tmatrix.h:174-185 and 286-297) are
  formatting wrappers over iostreams.
- Matrix×scalar (include/tmatrix.h:235-240) is left out. It converts the
  matrix to a `TDynamicVector<T>` and multiplies `T` by a row vector, so it
  does not type-check once instantiated, and nothing calls it.
- The scalar `-` and `*` take a `double` (include/tmatrix.h:131, 137). The
  model takes an `int` scalar, so the conversion through floating point is
  not modelled.
- Heap management is not modelled: allocation, the destructor, the buffers
  leaked by move assignment and by the matrix constructor, and `data()`
  pointer identity. Storage is a value sequence. `MovedFrom` records a null
  buffer.
- Genericity over `T` is left out. Only `int` is modelled.
- The null-pointer `assert` of the raw-array constructor (include/tmatrix.h:36)
  has nothing to check here, because the array is a sequence.
- Matrix move construction and move assignment, inherited from the vector
  of rows, are left out. They leave a matrix of order 0, which falls outside
  `Matrix`. A moved-into matrix equals its source, as for vectors.
- The `int` loop counters compared against `size_t` are not modelled. The
  sized constructors admit only sizes far below 2^31, but the raw-array
  constructor has no size check: `Vectors.FromArray` accepts any `size_t`,
  and for a vector of 2^31 elements or more the `int i` loops of the copy
  constructor, copy assignment, `==`, the scalar and the vector operators
  (include/tmatrix.h:45, 65, 112, 128, 149 and their siblings) overflow.
  The model runs those loops over every element as if the counter were wide
  enough.
- Object identity appears only as the `sameObject` flag of copy assignment.
  Other aliasing between operands (such as `v + v`) reads the same values
  and needs no flag. The one exception left out is `m[i] = m[i]`, a self
  copy-assignment of a row: `Matrices.SetRow` always treats the new row as
  a distinct object, so it behaves as the corrected `Vectors.CopyAssign`
  and keeps the row, whereas the code would lose its contents as
  `Vectors.CopyAssignAsWritten` shows.

## Findings

| source | as written | input that shows it | evidently intended | confidence | as-written member | corrected member |
|---|---|---|---|---|---|---|
| include/tmatrix.h:95 | `at` accepts only `0 < ind < sz` | any vector of size 1 or more with `ind = 0` is rejected, though element 0 exists | accept every `ind < sz` | medium, not executed | Vectors.At | Vectors.AtFromZero |
| include/tmatrix.h:59-69 | copy assignment frees the buffer before reading the source and has no self-assignment check | `v = v` with v = [1]: the copy reads the fresh uninitialised buffer | `v = v` leaves v unchanged | high, not executed | Vectors.CopyAssignAsWritten | Vectors.CopyAssign |
| include/tmatrix.h:59-69 | the same operator, inherited by the matrix, reallocates default one-element rows and copies each onto itself | `m1 = m1` on the 10×10 matrix of test/test_tmatrix.cpp:92-98 leaves ten rows of one element | `m = m` leaves m unchanged | high, not executed | Matrices.CopyAssignAsWritten | Matrices.CopyAssign |

The copies in `Matrices.Copy` and `Matrices.SetRow` use the corrected
`Vectors.CopyAssign`. The matrix accessor `Matrices.At` keeps the as-written
window, because callers that rely on `at` observe it.
