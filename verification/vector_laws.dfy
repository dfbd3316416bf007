/** Properties of the dynamic vector relating several operations: sizing
    edge cases, the move and copy contracts, the scalar and elementwise round
    trips, and the algebra of the dot product. */
module VectorLaws {
  import opened Outcomes
  import opened Vectors

  /** A negative constructor argument wraps to a `size_t` far above the
      ceiling and so is rejected as too large, not as zero. */
  lemma NegativeSizeIsTooLarge(n: int)
    requires MAX_VECTOR_SIZE - SIZE_T_MODULUS <= n < 0
    ensures New(ToSizeT(n)) == Err(SizeTooLarge)
  {
  }

  /** The ceiling itself is rejected and the size just below it accepted. */
  lemma SizeBoundaries()
    ensures New(0) == Err(InvalidSize)
    ensures New(MAX_VECTOR_SIZE) == Err(SizeTooLarge)
    ensures New(MAX_VECTOR_SIZE + 1) == Err(SizeTooLarge)
    ensures New(MAX_VECTOR_SIZE - 1).Ok? && Size(New(MAX_VECTOR_SIZE - 1).value) == MAX_VECTOR_SIZE - 1
  {
  }

  /** The checked accessor as written rejects index 0 of every vector, and a
      negative index wraps to a huge one that is rejected too. */
  lemma AtRejectsZeroAndNegative(v: Vec, n: int)
    requires Size(v) < MAX_VECTOR_SIZE
    requires MAX_VECTOR_SIZE - SIZE_T_MODULUS <= n < 0
    ensures At(v, 0) == Err(IndexOutOfRange)
    ensures At(v, ToSizeT(n)) == Err(IndexOutOfRange)
    ensures Size(v) > 0 ==> AtFromZero(v, 0) == Ok(Index(v, 0))
  {
  }

  /** Where the as-written accessor answers, it agrees with the intended one. */
  lemma AtRefinesAtFromZero(v: Vec, ind: SizeT)
    ensures At(v, ind).Ok? ==> AtFromZero(v, ind) == At(v, ind)
    ensures AtFromZero(v, ind).Ok? && At(v, ind).Err? <==> ind == 0 && Size(v) > 0
  {
  }

  /** Value equality is equal size plus equal elements position by position. */
  lemma EqIsPositionwise(a: Vec, b: Vec)
    ensures Eq(a, b) <==> Size(a) == Size(b) && forall i :: 0 <= i < Size(a) ==> Elems(a)[i] == Elems(b)[i]
  {
  }

  /** A moved-from vector and a copy of it compare equal although only the
      copy owns a buffer. */
  lemma MovedFromEqualsEmptyCopy()
    ensures Eq(MovedFrom, Copy(MovedFrom)) && MovedFrom != Copy(MovedFrom)
  {
  }

  /** Self move-assignment `v = std::move(v)` changes nothing. */
  lemma SelfMoveAssignIsNoOp(v: Vec)
    ensures MoveAssign(v, v) == Sides(v, v)
  {
  }

  /** The equality guard also fires for a distinct source of equal value:
      that source keeps its size instead of being reset to 0. */
  lemma MoveAssignSkipsEqualSource()
    ensures MoveAssign(Vec([0]), Vec([0])).rhs == Vec([0])
    ensures Size(MoveAssign(Vec([0]), Vec([0])).rhs) == 1
  {
  }

  /** Move assignment leaves the target holding what move construction
      would have given it. */
  lemma MoveAssignAgreesWithMoveConstruct(lhs: Vec, rhs: Vec)
    ensures Eq(MoveAssign(lhs, rhs).lhs, MoveConstruct(rhs).lhs)
  {
  }

  /** Swapping twice restores both objects. */
  lemma SwapTwiceRestores(a: Vec, b: Vec)
    ensures Swap(Swap(a, b).lhs, Swap(a, b).rhs) == Sides(a, b)
  {
  }

  /** Writing back the value just read through `[]` changes nothing. */
  lemma SetOwnValueIsNoOp(v: Vec, ind: SizeT)
    requires ind < Size(v)
    ensures Set(v, ind, Index(v, ind)) == v
  {
  }

  /** Self copy-assignment as written loses the contents whenever the fresh
      buffer does not happen to hold them; with the identity guard it keeps
      them. */
  lemma SelfCopyAssignLosesContents()
    ensures !Eq(CopyAssignAsWritten(Vec([1]), Vec([1]), true, [0]), Vec([1]))
    ensures CopyAssign(Vec([1]), Vec([1]), true) == Vec([1])
  {
  }

  /** Adding a scalar and then subtracting it restores every element. */
  lemma ScalarAddSubRoundTrip(v: Vec, s: int)
    ensures Eq(SubScalar(AddScalar(v, s), s), v)
  {
  }

  /** Multiplying by 1 restores every element. */
  lemma MulScalarOne(v: Vec)
    ensures Eq(MulScalar(v, 1), v)
  {
  }

  /** Adding a vector and then subtracting it restores the first operand. */
  lemma AddSubRoundTrip(a: Vec, b: Vec)
    requires Size(a) == Size(b)
    ensures Add(a, b).Ok? && Sub(Add(a, b).value, b).Ok?
    ensures Eq(Sub(Add(a, b).value, b).value, a)
  {
  }

  /** Elementwise addition is commutative. */
  lemma AddCommutes(a: Vec, b: Vec)
    ensures Add(a, b) == Add(b, a)
  {
    if Size(a) == Size(b) {
      assert Elems(Add(a, b).value) == Elems(Add(b, a).value);
    }
  }

  /** The accumulation is symmetric in its two sequences. */
  lemma {:induction false} SumProductsCommutes(x: seq<int>, y: seq<int>, n: nat)
    requires n <= |x| && n <= |y|
    ensures SumProducts(x, y, n) == SumProducts(y, x, n)
  {
    if n > 0 {
      SumProductsCommutes(x, y, n - 1);
      assert x[n - 1] * y[n - 1] == y[n - 1] * x[n - 1];
    }
  }

  /** The dot product is commutative, also in when it fails. */
  lemma DotCommutes(a: Vec, b: Vec)
    ensures Dot(a, b) == Dot(b, a)
  {
    if Size(a) == Size(b) {
      SumProductsCommutes(Elems(a), Elems(b), Size(a));
    }
  }

  /** The accumulation distributes over an elementwise sum in its first sequence. */
  lemma {:induction false} SumProductsAddLeft(s: seq<int>, x: seq<int>, y: seq<int>, z: seq<int>, n: nat)
    requires n <= |s| && n <= |x| && n <= |y| && n <= |z|
    requires forall i :: 0 <= i < n ==> s[i] == x[i] + y[i]
    ensures SumProducts(s, z, n) == SumProducts(x, z, n) + SumProducts(y, z, n)
  {
    if n > 0 {
      SumProductsAddLeft(s, x, y, z, n - 1);
      assert s[n - 1] * z[n - 1] == x[n - 1] * z[n - 1] + y[n - 1] * z[n - 1];
    }
  }

  /** `(a + b) * c == a * c + b * c` for vectors of one size. */
  lemma DotAddLeft(a: Vec, b: Vec, c: Vec)
    requires Size(a) == Size(b) == Size(c)
    ensures Add(a, b).Ok? && Dot(a, c).Ok? && Dot(b, c).Ok?
    ensures Dot(Add(a, b).value, c) == Ok(Dot(a, c).value + Dot(b, c).value)
  {
    SumProductsAddLeft(Elems(Add(a, b).value), Elems(a), Elems(b), Elems(c), Size(a));
  }

  /** A scalar factor in the first sequence comes out of the accumulation. */
  lemma {:induction false} SumProductsScaleLeft(s: seq<int>, k: int, x: seq<int>, z: seq<int>, n: nat)
    requires n <= |s| && n <= |x| && n <= |z|
    requires forall i :: 0 <= i < n ==> s[i] == k * x[i]
    ensures SumProducts(s, z, n) == k * SumProducts(x, z, n)
  {
    if n > 0 {
      SumProductsScaleLeft(s, k, x, z, n - 1);
      calc {
        SumProducts(s, z, n);
        k * SumProducts(x, z, n - 1) + (k * x[n - 1]) * z[n - 1];
        { assert (k * x[n - 1]) * z[n - 1] == k * (x[n - 1] * z[n - 1]); }
        k * (SumProducts(x, z, n - 1) + x[n - 1] * z[n - 1]);
      }
    }
  }

  /** `(k * a) * b == k * (a * b)`. */
  lemma DotScaleLeft(a: Vec, k: int, b: Vec)
    requires Size(a) == Size(b)
    ensures Dot(a, b).Ok?
    ensures Dot(MulScalar(a, k), b) == Ok(k * Dot(a, b).value)
  {
    SumProductsScaleLeft(Elems(MulScalar(a, k)), k, Elems(a), Elems(b), Size(a));
  }

  /** An all-zero sequence contributes nothing. */
  lemma {:induction false} SumProductsZeroLeft(x: seq<int>, n: nat)
    requires n <= |x|
    ensures SumProducts(Zeros(n), x, n) == 0
  {
    if n > 0 {
      SumProductsPrefix(Zeros(n), Zeros(n - 1), x, n - 1);
      SumProductsZeroLeft(x, n - 1);
    }
  }

  /** The accumulation over the first `n` positions reads nothing beyond them. */
  lemma {:induction false} SumProductsPrefix(x: seq<int>, x': seq<int>, y: seq<int>, n: nat)
    requires n <= |x| && n <= |x'| && n <= |y|
    requires x[..n] == x'[..n]
    ensures SumProducts(x, y, n) == SumProducts(x', y, n)
  {
    if n > 0 {
      assert x[..n - 1] == x[..n][..n - 1] && x'[..n - 1] == x'[..n][..n - 1];
      assert x[n - 1] == x[..n][n - 1] && x'[n - 1] == x'[..n][n - 1];
      SumProductsPrefix(x, x', y, n - 1);
    }
  }

  /** The dot product with a freshly constructed (zero) vector is 0. */
  lemma DotWithNewIsZero(a: Vec)
    requires ValidSize(Size(a))
    ensures New(Size(a)).Ok? && Dot(New(Size(a)).value, a) == Ok(0)
  {
    SumProductsZeroLeft(Elems(a), Size(a));
  }

  /** The `j`-th unit sequence of length `n`. */
  function Unit(n: nat, j: nat): (u: seq<int>)
    ensures |u| == n
  {
    seq(n, k => if k == j then 1 else 0)
  }

  /** Accumulating against a unit sequence picks out one element. */
  lemma {:induction false} SumProductsUnit(x: seq<int>, n: nat, j: nat, k: nat)
    requires k <= n && k <= |x|
    ensures SumProducts(x, Unit(n, j), k) == if j < k then x[j] else 0
  {
    if k > 0 {
      SumProductsUnit(x, n, j, k - 1);
    }
  }

  /** The worked case of the tests: [0,1,2,3,4] * [0,2,4,6,8] == 60. */
  lemma DotExample()
    ensures Dot(Vec([0, 2, 4, 6, 8]), Vec([0, 1, 2, 3, 4])) == Ok(60)
  {
  }
}
