/** The square matrix `TDynamicMatrix<T>` at `T = int`: a dynamic vector of
    row vectors. The rows are ordinary vectors that callers may replace one by
    one, so a matrix is not square by construction of the type; `Square` says
    when it is, and the operations state what they do on any shape. */
module Matrices {
  import opened Outcomes
  import V = Vectors

  /** Ceiling of the matrix constructor: orders at or above it are rejected. */
  const MAX_MATRIX_SIZE: nat := 10000

  /** The row buffer of a matrix. */
  datatype Grid = Grid(rows: seq<V.Vec>)

  /** Every matrix object the model handles: the constructor admits only
      orders in [1, MAX_MATRIX_SIZE), and copying, assigning and the
      arithmetic keep the order of an existing matrix. */
  type Matrix = g: Grid | 0 < |g.rows| < MAX_MATRIX_SIZE witness Grid([V.Vec([0])])

  /** `size()`: the number of rows. */
  function Order(m: Grid): nat {
    |m.rows|
  }

  /** Every row has exactly `Order(m)` elements. */
  predicate Square(m: Grid) {
    forall i :: 0 <= i < |m.rows| ==> V.Size(m.rows[i]) == |m.rows|
  }

  /** `m[i][j]`. */
  function Entry(m: Grid, i: nat, j: nat): int
    requires i < |m.rows| && j < V.Size(m.rows[i])
  {
    V.Elems(m.rows[i])[j]
  }

  /** Every element is zero. */
  predicate IsZero(m: Grid) {
    forall i, j :: 0 <= i < |m.rows| && 0 <= j < V.Size(m.rows[i]) ==> Entry(m, i, j) == 0
  }

  /** The row loop of the constructor, from row `i` on: each row, which the
      base-class constructor default-constructed, is move-assigned a fresh
      zero vector of length `n`. For `n == 1` the fresh vector equals the
      default row, so the move is skipped, with the same outcome. */
  function InstallZeroRows(rows: seq<V.Vec>, n: nat, i: nat): (r: seq<V.Vec>)
    requires i <= |rows|
    requires forall t :: i <= t < |rows| ==> rows[t] == V.DefaultVec()
    ensures |r| == |rows|
    ensures forall t :: 0 <= t < i ==> r[t] == rows[t]
    ensures forall t :: i <= t < |r| ==> r[t] == V.ZeroVec(n)
    decreases |rows| - i
  {
    if i == |rows| then rows
    else
      var moved := V.MoveAssign(rows[i], V.ZeroVec(n));
      assert rows[i] == V.DefaultVec() && V.ZeroVec(n).Vec?;
      InstallZeroRows(rows[i := moved.lhs], n, i + 1)
  }

  /** The constructor `TDynamicMatrix(size_t s = 1)`: first the base-class
      constructor (the vector size checks, `s` default rows), then the
      matrix ceiling, then the row loop. */
  function New(s: V.SizeT): (r: Result<Matrix>)
    ensures r.Ok? <==> 0 < s < MAX_MATRIX_SIZE
    ensures s == 0 ==> r == Err(InvalidSize)
    ensures s >= MAX_MATRIX_SIZE ==> r == Err(SizeTooLarge)
    ensures r.Ok? ==> Order(r.value) == s && Square(r.value) && IsZero(r.value)
  {
    if !V.ValidSize(s) then Err(V.SizeError(s))
    else if s >= MAX_MATRIX_SIZE then Err(SizeTooLarge)
    else Ok(Grid(InstallZeroRows(seq(s, _ => V.DefaultVec()), s, 0)))
  }

  /** Value equality: what `operator==` decides (see `Equal`). */
  predicate Eq(a: Grid, b: Grid) {
    Order(a) == Order(b) && forall i :: 0 <= i < Order(a) ==> V.Eq(a.rows[i], b.rows[i])
  }

  /** `operator==`: orders first, then the rows in order through the row
      vectors' `operator!=`, returning at the first difference. */
  method Equal(a: Matrix, b: Matrix) returns (r: bool)
    ensures r <==> Eq(a, b)
  {
    if Order(a) != Order(b) {
      return false;
    }
    var i := 0;
    while i < Order(a)
      invariant 0 <= i <= Order(a)
      invariant forall t :: 0 <= t < i ==> V.Eq(a.rows[t], b.rows[t])
    {
      var differ := V.NotEqual(a.rows[i], b.rows[i]);
      if differ {
        return false;
      }
      i := i + 1;
    }
    return true;
  }

  /** `operator!=`: its own loop, returning true at the first difference. */
  method NotEqual(a: Matrix, b: Matrix) returns (r: bool)
    ensures r <==> !Eq(a, b)
  {
    if Order(a) != Order(b) {
      return true;
    }
    var i := 0;
    while i < Order(a)
      invariant 0 <= i <= Order(a)
      invariant forall t :: 0 <= t < i ==> V.Eq(a.rows[t], b.rows[t])
    {
      var differ := V.NotEqual(a.rows[i], b.rows[i]);
      if differ {
        return true;
      }
      i := i + 1;
    }
    return false;
  }

  /** The rows the base-class copy operations allocate before copying:
      default-constructed vectors. */
  function DefaultRows(n: nat): (rows: seq<V.Vec>)
    ensures |rows| == n
  {
    seq(n, _ => V.DefaultVec())
  }

  /** The copy constructor: a fresh row buffer, each row copy-assigned from
      the source's row. */
  function Copy(m: Matrix): (r: Matrix)
    ensures Eq(r, m)
    ensures Square(m) ==> Square(r)
  {
    var blank := DefaultRows(Order(m));
    Grid(seq(Order(m), i requires 0 <= i < Order(m) => V.CopyAssign(blank[i], m.rows[i], false)))
  }

  /** Copy assignment `target = src` as written (inherited from the vector of
      rows). The old rows are released and `Order(src)` default rows
      allocated before the copy loop reads `src`. When `target` and `src` are
      the same object the loop copy-assigns each fresh one-element row onto
      itself, so every row ends with one element read from uninitialised
      storage; `uninit[i]` stands for the one of row `i`. */
  function CopyAssignAsWritten(target: Matrix, src: Matrix, sameObject: bool, uninit: seq<int>): (r: Matrix)
    requires sameObject ==> target == src
    requires sameObject ==> |uninit| == Order(src)
    ensures Order(r) == Order(src)
    ensures !sameObject ==> Eq(r, src)
    ensures sameObject ==> forall i :: 0 <= i < Order(r) ==> V.Elems(r.rows[i]) == [uninit[i]]
  {
    var blank := DefaultRows(Order(src));
    Grid(seq(Order(src), i requires 0 <= i < Order(src) =>
      if sameObject then V.CopyAssignAsWritten(blank[i], blank[i], true, [uninit[i]])
      else V.CopyAssign(blank[i], src.rows[i], false)))
  }

  /** Copy assignment with the self-assignment guard by identity. */
  function CopyAssign(target: Matrix, src: Matrix, sameObject: bool): (r: Matrix)
    requires sameObject ==> target == src
    ensures Order(r) == Order(src)
    ensures Eq(r, src)
    ensures Square(src) ==> Square(r)
    ensures sameObject ==> r == target
  {
    if sameObject then target else Copy(src)
  }

  /** Checked row accessor `at(ind)`, inherited from the vector of rows:
      the same window, so row 0 is rejected. */
  function At(m: Matrix, ind: V.SizeT): (r: Result<V.Vec>)
    ensures r.Ok? <==> 0 < ind < Order(m)
    ensures r.Ok? ==> r.value == m.rows[ind]
    ensures r.Err? ==> r.error == IndexOutOfRange
  {
    if V.InCheckedRange(ind, Order(m)) then Ok(m.rows[ind]) else Err(IndexOutOfRange)
  }

  /** Row replacement `m[i] = v` through the unchecked accessor: a copy
      assignment into the row, with no check of the new row's length. */
  function SetRow(m: Matrix, i: V.SizeT, v: V.Vec): (r: Matrix)
    requires i < Order(m)
    ensures Order(r) == Order(m)
    ensures V.Eq(r.rows[i], v)
    ensures forall t :: 0 <= t < Order(m) && t != i ==> r.rows[t] == m.rows[t]
    ensures Square(m) ==> (Square(r) <==> V.Size(v) == Order(m))
  {
    Grid(m.rows[i := V.CopyAssign(m.rows[i], v, false)])
  }

  /** The row loop of matrix-vector `operator*` from row `i` on: each entry
      of the result buffer `acc` is set to the dot product of that row with
      `v`, which fails on the first row whose size differs from `v`'s. */
  function RowDots(rows: seq<V.Vec>, v: V.Vec, i: nat, acc: seq<int>): (r: Result<seq<int>>)
    requires i <= |rows| == |acc|
    ensures r.Err? <==> exists t :: i <= t < |rows| && V.Size(rows[t]) != V.Size(v)
    ensures r.Err? ==> r.error == SizeMismatch
    ensures r.Ok? ==> |r.value| == |rows|
    ensures r.Ok? ==> forall t :: 0 <= t < i ==> r.value[t] == acc[t]
    ensures r.Ok? ==> forall t :: i <= t < |rows| ==> V.Dot(rows[t], v) == Ok(r.value[t])
    decreases |rows| - i
  {
    if i == |rows| then Ok(acc)
    else
      var d :- V.Dot(rows[i], v);
      RowDots(rows, v, i + 1, acc[i := d])
  }

  /** Matrix-vector `operator*`: the order must equal the vector's size, and
      entry `i` of the result is row `i` times the vector. */
  function MulVec(m: Matrix, v: V.Vec): (r: Result<V.Vec>)
    ensures r.Err? <==> Order(m) != V.Size(v) || exists i :: 0 <= i < Order(m) && V.Size(m.rows[i]) != V.Size(v)
    ensures r.Err? ==> r.error == SizeMismatch
    ensures r.Ok? ==> r.value.Vec? && V.Size(r.value) == Order(m)
    ensures r.Ok? ==> forall i :: 0 <= i < Order(m) ==> V.Dot(m.rows[i], v) == Ok(V.Elems(r.value)[i])
  {
    if Order(m) != V.Size(v) then Err(SizeMismatch)
    else
      var dots :- RowDots(m.rows, v, 0, V.Elems(V.New(Order(m)).value));
      Ok(V.Vec(dots))
  }

  /** Which elementwise vector operation the matrix `+` or `-` applies per row. */
  datatype Sign = Plus | Minus

  function Combine(a: V.Vec, b: V.Vec, sign: Sign): Result<V.Vec> {
    if sign == Plus then V.Add(a, b) else V.Sub(a, b)
  }

  /** The row loop of matrix `+` and `-` from row `i` on: row `i` of the
      result copy `res` is move-assigned the combination of the operands'
      rows, which fails on the first pair of rows of different sizes. */
  function CombineRows(res: seq<V.Vec>, a: seq<V.Vec>, b: seq<V.Vec>, sign: Sign, i: nat): (r: Result<seq<V.Vec>>)
    requires |res| == |a| == |b| && i <= |a|
    requires forall t :: i <= t < |res| ==> res[t].Vec?
    ensures r.Err? <==> exists t :: i <= t < |a| && V.Size(a[t]) != V.Size(b[t])
    ensures r.Err? ==> r.error == SizeMismatch
    ensures r.Ok? ==> |r.value| == |a|
    ensures r.Ok? ==> forall t :: 0 <= t < i ==> r.value[t] == res[t]
    ensures r.Ok? ==> forall t :: i <= t < |a| ==> Combine(a[t], b[t], sign) == Ok(r.value[t])
    decreases |a| - i
  {
    if i == |a| then Ok(res)
    else
      var row :- Combine(a[i], b[i], sign);
      CombineRows(res[i := V.MoveAssign(res[i], row).lhs], a, b, sign, i + 1)
  }

  /** Matrix `operator+`: row by row, starting from a copy of `a`. */
  function Add(a: Matrix, b: Matrix): (r: Result<Matrix>)
    ensures r.Err? <==> Order(a) != Order(b) || exists i :: 0 <= i < Order(a) && V.Size(a.rows[i]) != V.Size(b.rows[i])
    ensures r.Err? ==> r.error == SizeMismatch
    ensures r.Ok? ==> Order(r.value) == Order(a)
    ensures r.Ok? ==> forall i :: 0 <= i < Order(a) ==> V.Add(a.rows[i], b.rows[i]) == Ok(r.value.rows[i])
  {
    if Order(a) != Order(b) then Err(SizeMismatch)
    else
      var rows :- CombineRows(Copy(a).rows, a.rows, b.rows, Plus, 0);
      Ok(Grid(rows))
  }

  /** Matrix `operator-`: row by row, starting from a copy of `a`. */
  function Sub(a: Matrix, b: Matrix): (r: Result<Matrix>)
    ensures r.Err? <==> Order(a) != Order(b) || exists i :: 0 <= i < Order(a) && V.Size(a.rows[i]) != V.Size(b.rows[i])
    ensures r.Err? ==> r.error == SizeMismatch
    ensures r.Ok? ==> Order(r.value) == Order(a)
    ensures r.Ok? ==> forall i :: 0 <= i < Order(a) ==> V.Sub(a.rows[i], b.rows[i]) == Ok(r.value.rows[i])
  {
    if Order(a) != Order(b) then Err(SizeMismatch)
    else
      var rows :- CombineRows(Copy(a).rows, a.rows, b.rows, Minus, 0);
      Ok(Grid(rows))
  }

  /** What the product loop needs to stay in bounds when the orders agree:
      the column loop runs to `Size(b.rows[0])` and, when it runs at all,
      reads `a[i][k]` for every `k` below the order and `b[k][j]` for every column `j` it visits, and
      writes into a result row of length `Order(a)`. Out-of-bounds access
      there is undefined, so it is a demand on the caller. Square operands
      of one order meet it (see `MatrixLaws.SquareProductDefined`). */
  predicate ProductDefined(a: Matrix, b: Matrix) {
    Order(a) == Order(b) ==>
      && (V.Size(b.rows[0]) > 0 ==> forall i :: 0 <= i < Order(a) ==> Order(a) <= V.Size(a.rows[i]))
      && V.Size(b.rows[0]) <= Order(a)
      && (forall k :: 0 <= k < Order(b) ==> V.Size(b.rows[0]) <= V.Size(b.rows[k]))
  }

  /** Column `j` of `b`, read top to bottom. */
  function Column(b: Grid, j: nat): (c: seq<int>)
    requires forall k :: 0 <= k < |b.rows| ==> j < V.Size(b.rows[k])
    ensures |c| == |b.rows|
    ensures forall k :: 0 <= k < |b.rows| ==> c[k] == Entry(b, k, j)
  {
    seq(|b.rows|, k requires 0 <= k < |b.rows| => Entry(b, k, j))
  }

  /** Reference entry of the product: row `i` of `a` accumulated against
      column `j` of `b`, for the columns the loop visits; the others keep
      the zero the result was constructed with. */
  function ProductEntry(a: Matrix, b: Matrix, i: nat, j: nat): int
    requires ProductDefined(a, b) && Order(a) == Order(b)
    requires i < Order(a)
  {
    if j < V.Size(b.rows[0]) then V.SumProducts(V.Elems(a.rows[i]), Column(b, j), Order(a)) else 0
  }

  /** Row `i` of the reference product. */
  function ProductRow(a: Matrix, b: Matrix, i: nat): (r: V.Vec)
    requires ProductDefined(a, b) && Order(a) == Order(b)
    requires i < Order(a)
    ensures r.Vec? && V.Size(r) == Order(a)
  {
    V.Vec(seq(Order(a), j requires 0 <= j < Order(a) => ProductEntry(a, b, i, j)))
  }

  /** Reference matrix product, built row by row from dot products of rows
      of `a` with columns of `b`. */
  function Product(a: Matrix, b: Matrix): (r: Result<Matrix>)
    requires ProductDefined(a, b)
    ensures r.Err? <==> Order(a) != Order(b)
    ensures r.Err? ==> r.error == SizeMismatch
    ensures r.Ok? ==> Order(r.value) == Order(a) && Square(r.value)
  {
    if Order(a) != Order(b) then Err(SizeMismatch)
    else Ok(Grid(seq(Order(a), i requires 0 <= i < Order(a) => ProductRow(a, b, i))))
  }

  /** The innermost loop of the product for entry (i, j): `row[j]`, zero
      on entry, accumulates `a[i][k] * b[k][j]` for k = 0, 1, ... in place;
      no other position of the row changes. */
  method AccumulateEntry(a: Matrix, b: Matrix, i: nat, j: nat, row: seq<int>) returns (row': seq<int>)
    requires ProductDefined(a, b) && Order(a) == Order(b)
    requires i < Order(a) && j < V.Size(b.rows[0])
    requires |row| == Order(a) && row[j] == 0
    ensures |row'| == |row|
    ensures row'[j] == ProductEntry(a, b, i, j)
    ensures forall c :: 0 <= c < |row| && c != j ==> row'[c] == row[c]
  {
    var n := Order(a);
    row' := row;
    var k := 0;
    while k < n
      invariant 0 <= k <= n
      invariant |row'| == n
      invariant row'[j] == V.SumProducts(V.Elems(a.rows[i]), Column(b, j), k)
      invariant forall c :: 0 <= c < n && c != j ==> row'[c] == row[c]
    {
      row' := row'[j := row'[j] + V.Elems(a.rows[i])[k] * V.Elems(b.rows[k])[j]];
      k := k + 1;
    }
  }

  /** Matrix-matrix `operator*`: the triple loop over a zero result of the
      same order, with the column bound taken from `b`'s first row and the
      accumulator restarted at zero for every entry. */
  method Mul(a: Matrix, b: Matrix) returns (r: Result<Matrix>)
    requires ProductDefined(a, b)
    ensures r == Product(a, b)
  {
    if Order(a) != Order(b) {
      return Err(SizeMismatch);
    }
    var n := Order(a);
    var cols := V.Size(b.rows[0]);
    var rows: seq<V.Vec> := [];
    var i := 0;
    while i < n
      invariant 0 <= i <= n
      invariant |rows| == i
      invariant forall t :: 0 <= t < i ==> rows[t] == ProductRow(a, b, t)
    {
      var row := V.Zeros(n);
      var j := 0;
      while j < cols
        invariant 0 <= j <= cols
        invariant |row| == n
        invariant forall c :: 0 <= c < j ==> row[c] == ProductEntry(a, b, i, c)
        invariant forall c :: j <= c < n ==> row[c] == 0
      {
        row := AccumulateEntry(a, b, i, j, row);
        j := j + 1;
      }
      assert row == V.Elems(ProductRow(a, b, i));
      rows := rows + [V.Vec(row)];
      i := i + 1;
    }
    assert Product(a, b).value.rows == rows;
    return Ok(Grid(rows));
  }
}
