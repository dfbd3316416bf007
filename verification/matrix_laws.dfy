/** Properties of the square matrix relating several operations: the
    constructor's edge cases, the square shape under arithmetic and row
    replacement, the self-assignment defect, and the product against the
    identity matrix and a worked example. */
module MatrixLaws {
  import opened Outcomes
  import V = Vectors
  import VL = VectorLaws
  import opened Matrices

  /** A negative order wraps to a `size_t` far above both ceilings. */
  lemma NegativeOrderIsTooLarge(n: int)
    requires V.MAX_VECTOR_SIZE - V.SIZE_T_MODULUS <= n < 0
    ensures New(V.ToSizeT(n)) == Err(SizeTooLarge)
  {
  }

  /** Orders between the matrix ceiling and the vector ceiling pass the
      base-class check and are rejected by the matrix's own. */
  lemma OrderBoundaries()
    ensures New(0) == Err(InvalidSize)
    ensures New(MAX_MATRIX_SIZE) == Err(SizeTooLarge)
    ensures New(MAX_MATRIX_SIZE + 1) == Err(SizeTooLarge)
    ensures V.ValidSize(MAX_MATRIX_SIZE)
    ensures New(MAX_MATRIX_SIZE - 1).Ok? && Order(New(MAX_MATRIX_SIZE - 1).value) == MAX_MATRIX_SIZE - 1
  {
  }

  /** For order 1 the fresh zero row equals the default row, so the move in
      the row loop is skipped; the matrix is the 1x1 zero matrix all the same. */
  lemma OrderOneSkipsRowMove()
    ensures V.Eq(V.DefaultVec(), V.ZeroVec(1))
    ensures V.MoveAssign(V.DefaultVec(), V.ZeroVec(1)) == V.Sides(V.DefaultVec(), V.ZeroVec(1))
    ensures New(1) == Ok(Grid([V.Vec([0])]))
  {
    assert V.Zeros(1) == [0];
    assert New(1).value.rows == [V.Vec([0])];
  }

  /** Two matrices of different orders are never equal, and equality is
      symmetric. */
  lemma EqNeedsSameOrder(a: Matrix, b: Matrix)
    ensures Order(a) != Order(b) ==> !Eq(a, b)
    ensures Eq(a, b) ==> Eq(b, a)
  {
  }

  /** Self copy-assignment as written collapses every row to one element:
      a square matrix of order 2 or more is no longer square, nor equal to
      what it was. With the identity guard it is unchanged. */
  lemma SelfCopyAssignBreaksShape(m: Matrix, uninit: seq<int>)
    requires Square(m) && Order(m) >= 2
    requires |uninit| == Order(m)
    ensures !Square(CopyAssignAsWritten(m, m, true, uninit))
    ensures !Eq(CopyAssignAsWritten(m, m, true, uninit), m)
    ensures CopyAssign(m, m, true) == m
  {
    var r := CopyAssignAsWritten(m, m, true, uninit);
    assert V.Elems(r.rows[0]) == [uninit[0]];
    assert V.Size(r.rows[0]) == 1 != Order(r);
    assert V.Size(m.rows[0]) == Order(m);
  }

  /** Square operands of one order satisfy what the product loop needs. */
  lemma SquareProductDefined(a: Matrix, b: Matrix)
    requires Square(a) && Square(b)
    ensures ProductDefined(a, b)
  {
  }

  /** Adding square matrices of one order succeeds, keeps the shape, and
      adds entry by entry. */
  lemma AddSquare(a: Matrix, b: Matrix)
    requires Square(a) && Square(b) && Order(a) == Order(b)
    ensures Add(a, b).Ok? && Square(Add(a, b).value)
    ensures forall i, j :: 0 <= i < Order(a) && 0 <= j < Order(a) ==>
      Entry(Add(a, b).value, i, j) == Entry(a, i, j) + Entry(b, i, j)
  {
  }

  /** Subtracting square matrices of one order succeeds, keeps the shape,
      and subtracts entry by entry. */
  lemma SubSquare(a: Matrix, b: Matrix)
    requires Square(a) && Square(b) && Order(a) == Order(b)
    ensures Sub(a, b).Ok? && Square(Sub(a, b).value)
    ensures forall i, j :: 0 <= i < Order(a) && 0 <= j < Order(a) ==>
      Entry(Sub(a, b).value, i, j) == Entry(a, i, j) - Entry(b, i, j)
  {
  }

  /** Adding `b` and then subtracting it gives back `a` exactly. */
  lemma AddSubRoundTrip(a: Matrix, b: Matrix)
    requires Square(a) && Square(b) && Order(a) == Order(b)
    ensures Add(a, b).Ok? && Sub(Add(a, b).value, b) == Ok(a)
  {
    AddSquare(a, b);
    var s := Add(a, b).value;
    SubSquare(s, b);
    var d := Sub(s, b).value;
    forall i | 0 <= i < Order(a)
      ensures d.rows[i] == a.rows[i]
    {
      assert V.Add(a.rows[i], b.rows[i]) == Ok(s.rows[i]);
      assert V.Sub(s.rows[i], b.rows[i]) == Ok(d.rows[i]);
      RowAddSubRoundTrip(a.rows[i], b.rows[i]);
    }
    assert d.rows == a.rows;
  }

  /** One row of the round trip: an owned row plus `y` minus `y` is that row. */
  lemma RowAddSubRoundTrip(x: V.Vec, y: V.Vec)
    requires x.Vec? && V.Size(x) == V.Size(y)
    ensures V.Add(x, y).Ok? && V.Sub(V.Add(x, y).value, y) == Ok(x)
  {
    assert V.Elems(V.Sub(V.Add(x, y).value, y).value) == V.Elems(x);
  }

  /** Replacing a row of a square matrix by a vector of another length
      leaves a matrix that is not square; the accessor does not check. */
  lemma WrongSizeRowBreaksShape(m: Matrix, i: V.SizeT, v: V.Vec)
    requires Square(m) && i < Order(m) && V.Size(v) != Order(m)
    ensures !Square(SetRow(m, i, v))
    ensures MulVec(SetRow(m, i, v), V.ZeroVec(Order(m))).Err?
  {
  }

  /** The identity matrix of order `n`. */
  function Identity(n: nat): (m: Matrix)
    requires 0 < n < MAX_MATRIX_SIZE
    ensures Order(m) == n && Square(m)
    ensures forall i :: 0 <= i < n ==> V.Elems(m.rows[i]) == VL.Unit(n, i)
  {
    Grid(seq(n, i requires 0 <= i < n => V.Vec(VL.Unit(n, i))))
  }

  /** Multiplying the identity by a vector of matching size gives the vector. */
  lemma MulVecIdentity(v: V.Vec)
    requires 0 < V.Size(v) < MAX_MATRIX_SIZE
    ensures MulVec(Identity(V.Size(v)), v).Ok?
    ensures V.Eq(MulVec(Identity(V.Size(v)), v).value, v)
  {
    var n := V.Size(v);
    var m := Identity(n);
    var r := MulVec(m, v).value;
    forall i | 0 <= i < n
      ensures V.Elems(r)[i] == V.Elems(v)[i]
    {
      assert V.Dot(m.rows[i], v) == Ok(V.Elems(r)[i]);
      VL.SumProductsCommutes(VL.Unit(n, i), V.Elems(v), n);
      VL.SumProductsUnit(V.Elems(v), n, i, n);
    }
    VL.EqIsPositionwise(r, v);
  }

  /** A worked case: [[1,0],[0,1]] times [7,9] is [7,9]. */
  lemma MulVecExample()
    ensures MulVec(Grid([V.Vec([1, 0]), V.Vec([0, 1])]), V.Vec([7, 9])) == Ok(V.Vec([7, 9]))
  {
    var v := V.Vec([7, 9]);
    assert Identity(2) == Grid([V.Vec([1, 0]), V.Vec([0, 1])]) by {
      assert VL.Unit(2, 0) == [1, 0] && VL.Unit(2, 1) == [0, 1];
    }
    MulVecIdentity(v);
    var r := MulVec(Identity(2), v).value;
    assert V.Elems(r) == [7, 9];
  }

  /** When `b`'s first row is empty the column loop never runs: no row of
      `a` is read, whatever its length, and the product is the zero matrix. */
  lemma EmptyFirstRowGivesZeroProduct(a: Matrix, b: Matrix)
    requires Order(a) == Order(b) && V.Size(b.rows[0]) == 0
    ensures ProductDefined(a, b) && Product(a, b).Ok?
    ensures Square(Product(a, b).value) && IsZero(Product(a, b).value)
  {
  }

  /** For square operands of one order every column is visited, so each
      entry of the product is a full row-by-column accumulation. */
  lemma SquareProductEntries(a: Matrix, b: Matrix)
    requires Square(a) && Square(b) && Order(a) == Order(b)
    ensures ProductDefined(a, b) && Product(a, b).Ok?
    ensures forall i, j :: 0 <= i < Order(a) && 0 <= j < Order(a) ==>
      Entry(Product(a, b).value, i, j) == V.SumProducts(V.Elems(a.rows[i]), Column(b, j), Order(a))
  {
  }

  /** Column `j` of the identity is the `j`-th unit sequence. */
  lemma IdentityColumn(n: nat, j: nat)
    requires 0 < n < MAX_MATRIX_SIZE && j < n
    ensures Column(Identity(n), j) == VL.Unit(n, j)
  {
  }

  /** The identity is a right unit of the product. */
  lemma ProductIdentityRight(a: Matrix)
    requires Square(a)
    ensures ProductDefined(a, Identity(Order(a)))
    ensures Product(a, Identity(Order(a))) == Ok(a)
  {
    var n := Order(a);
    var e := Identity(n);
    SquareProductEntries(a, e);
    var p := Product(a, e).value;
    forall i | 0 <= i < n
      ensures p.rows[i] == a.rows[i]
    {
      forall j | 0 <= j < n
        ensures Entry(p, i, j) == Entry(a, i, j)
      {
        IdentityColumn(n, j);
        VL.SumProductsUnit(V.Elems(a.rows[i]), n, j, n);
      }
      assert V.Elems(p.rows[i]) == V.Elems(a.rows[i]);
    }
    assert p.rows == a.rows;
  }

  /** The identity is a left unit of the product. */
  lemma ProductIdentityLeft(a: Matrix)
    requires Square(a)
    ensures ProductDefined(Identity(Order(a)), a)
    ensures Product(Identity(Order(a)), a) == Ok(a)
  {
    var n := Order(a);
    var e := Identity(n);
    SquareProductEntries(e, a);
    var p := Product(e, a).value;
    forall i | 0 <= i < n
      ensures p.rows[i] == a.rows[i]
    {
      forall j | 0 <= j < n
        ensures Entry(p, i, j) == Entry(a, i, j)
      {
        var c := Column(a, j);
        VL.SumProductsCommutes(VL.Unit(n, i), c, n);
        VL.SumProductsUnit(c, n, i, n);
        assert c[i] == Entry(a, i, j);
      }
      assert V.Elems(p.rows[i]) == V.Elems(a.rows[i]);
    }
    assert p.rows == a.rows;
  }

  /** A worked case: [[1,2],[3,4]] times [[5,6],[7,8]] is [[19,22],[43,50]]. */
  lemma ProductExample()
    ensures ProductDefined(Grid([V.Vec([1, 2]), V.Vec([3, 4])]), Grid([V.Vec([5, 6]), V.Vec([7, 8])]))
    ensures Product(Grid([V.Vec([1, 2]), V.Vec([3, 4])]), Grid([V.Vec([5, 6]), V.Vec([7, 8])]))
         == Ok(Grid([V.Vec([19, 22]), V.Vec([43, 50])]))
  {
    var a := Grid([V.Vec([1, 2]), V.Vec([3, 4])]);
    var b := Grid([V.Vec([5, 6]), V.Vec([7, 8])]);
    SquareProductDefined(a, b);
    assert Column(b, 0) == [5, 7] && Column(b, 1) == [6, 8];
    assert ProductRow(a, b, 0) == V.Vec([19, 22]);
    assert ProductRow(a, b, 1) == V.Vec([43, 50]);
    var p := Product(a, b).value;
    assert p.rows == [V.Vec([19, 22]), V.Vec([43, 50])];
  }
}
