/** The dynamic vector `TDynamicVector<T>` instantiated at `T = int`: a size
    together with an owned buffer of exactly that many elements. Storage is a
    value sequence; the only state that has no buffer at all is the one a move
    leaves behind. */
module Vectors {
  import opened Outcomes

  /** Ceiling of the sized constructor: sizes at or above it are rejected. */
  const MAX_VECTOR_SIZE: nat := 100000000

  /** Number of values of the 64-bit unsigned `size_t`. */
  const SIZE_T_MODULUS: int := 0x1_0000_0000_0000_0000

  /** Sizes and indices are `size_t`. */
  type SizeT = n: nat | n < SIZE_T_MODULUS

  /** The implicit conversion of a signed argument to `size_t`: a negative
      value wraps around to a huge one. */
  function ToSizeT(n: int): (s: SizeT)
    ensures 0 <= n < SIZE_T_MODULUS ==> s == n
    ensures -SIZE_T_MODULUS <= n < 0 ==> s == n + SIZE_T_MODULUS
  {
    n % SIZE_T_MODULUS
  }

  /** A vector owning the buffer `elems`, or the moved-from state (size 0,
      null buffer). */
  datatype Vec = Vec(elems: seq<int>) | MovedFrom

  /** The element values; a null buffer holds none. */
  function Elems(v: Vec): seq<int> {
    if v.Vec? then v.elems else []
  }

  /** `size()`: a moved-from vector reports 0, an owned buffer its length. */
  function Size(v: Vec): (n: nat)
    ensures v.MovedFrom? ==> n == 0
    ensures v.Vec? ==> n == |v.elems|
  {
    |Elems(v)|
  }

  /** `n` value-initialised elements. */
  function Zeros(n: nat): (z: seq<int>)
    ensures |z| == n
    ensures forall i :: 0 <= i < n ==> z[i] == 0
  {
    seq(n, _ => 0)
  }

  /** A vector of `n` zeros with its own buffer. */
  function ZeroVec(n: nat): Vec {
    Vec(Zeros(n))
  }

  /** The sizes the sized constructor accepts. */
  predicate ValidSize(size: nat) {
    0 < size < MAX_VECTOR_SIZE
  }

  /** Which of the two size checks of the sized constructor fails first. */
  function SizeError(size: nat): Error
    requires !ValidSize(size)
  {
    if size == 0 then InvalidSize else SizeTooLarge
  }

  /** The sized constructor `TDynamicVector(size_t size = 1)`. */
  function New(size: SizeT): (r: Result<Vec>)
    ensures r.Ok? <==> 0 < size < MAX_VECTOR_SIZE
    ensures size == 0 ==> r == Err(InvalidSize)
    ensures size >= MAX_VECTOR_SIZE ==> r == Err(SizeTooLarge)
    ensures r.Ok? ==> r.value.Vec? && Size(r.value) == size
    ensures r.Ok? ==> forall i :: 0 <= i < size ==> Elems(r.value)[i] == 0
  {
    if !ValidSize(size) then Err(SizeError(size)) else Ok(ZeroVec(size))
  }

  /** What the default constructor builds: one zero element. */
  function DefaultVec(): (v: Vec)
    ensures v.Vec? && New(1) == Ok(v)
  {
    ZeroVec(1)
  }

  /** The constructor from a raw buffer `TDynamicVector(T* arr, size_t s)`.
      It performs no size check; reading past the end of `arr` is undefined,
      so the caller must supply at least `s` elements. */
  function FromArray(arr: seq<int>, s: SizeT): (r: Vec)
    requires s <= |arr|
    ensures r.Vec? && Size(r) == s
    ensures forall i :: 0 <= i < s ==> Elems(r)[i] == arr[i]
  {
    Vec(arr[..s])
  }

  /** Value equality: what `operator==` decides (see `Equal`). */
  predicate Eq(a: Vec, b: Vec) {
    Elems(a) == Elems(b)
  }

  /** The copy constructor: fresh storage holding the same elements. Copying
      a moved-from vector allocates an empty buffer. */
  function Copy(v: Vec): (r: Vec)
    ensures r.Vec?
    ensures Size(r) == Size(v)
    ensures Eq(r, v)
  {
    Vec(Elems(v))
  }

  /** Copy assignment `target = src` as written. The old buffer is released
      before the copy loop reads `src`; when `target` and `src` are the same
      object the loop therefore reads the freshly allocated, uninitialised
      buffer, whose contents `uninit` stands for. */
  function CopyAssignAsWritten(target: Vec, src: Vec, sameObject: bool, uninit: seq<int>): (r: Vec)
    requires sameObject ==> target == src
    requires |uninit| == Size(src)
    ensures r.Vec? && Size(r) == Size(src)
    ensures !sameObject ==> Eq(r, src)
    ensures sameObject ==> Elems(r) == uninit
  {
    if sameObject then Vec(uninit) else Copy(src)
  }

  /** Copy assignment with the self-assignment guard by identity: the target
      ends up equal to the source, whatever its own size was. */
  function CopyAssign(target: Vec, src: Vec, sameObject: bool): (r: Vec)
    requires sameObject ==> target == src
    ensures Size(r) == Size(src)
    ensures Eq(r, src)
    ensures sameObject ==> r == target
  {
    if sameObject then target else Copy(src)
  }

  /** The two objects a move, a move assignment or a swap acts on. */
  datatype Sides = Sides(lhs: Vec, rhs: Vec)

  /** Move construction `Vec lhs(std::move(rhs))`: the new object takes over
      the buffer and the source is left with size 0 and a null buffer. */
  function MoveConstruct(rhs: Vec): (r: Sides)
    ensures Eq(r.lhs, rhs) && Size(r.lhs) == Size(rhs)
    ensures r.rhs.MovedFrom? && Size(r.rhs) == 0
  {
    Sides(rhs, MovedFrom)
  }

  /** Move assignment `lhs = std::move(rhs)` as written: the move is skipped
      whenever `lhs` already equals `rhs` by value, so a distinct but equal
      source keeps its buffer. */
  function MoveAssign(lhs: Vec, rhs: Vec): (r: Sides)
    ensures Eq(r.lhs, rhs)
    ensures lhs.Vec? && rhs.Vec? ==> r.lhs == rhs
    ensures Eq(lhs, rhs) ==> r == Sides(lhs, rhs)
    ensures !Eq(lhs, rhs) ==> r.rhs.MovedFrom? && Size(r.rhs) == 0
  {
    if Eq(lhs, rhs) then Sides(lhs, rhs) else Sides(rhs, MovedFrom)
  }

  /** `swap(lhs, rhs)`: the two objects exchange size and buffer. */
  function Swap(lhs: Vec, rhs: Vec): (r: Sides)
    ensures Eq(r.lhs, rhs) && Eq(r.rhs, lhs)
    ensures Size(r.lhs) == Size(rhs) && Size(r.rhs) == Size(lhs)
  {
    Sides(rhs, lhs)
  }

  /** Unchecked `operator[]`; an index at or past the size is undefined. */
  function Index(v: Vec, ind: SizeT): (x: int)
    requires ind < Size(v)
    ensures v.Vec? && x in v.elems
  {
    Elems(v)[ind]
  }

  /** Assignment through the unchecked accessor, `v[ind] = x`. */
  function Set(v: Vec, ind: SizeT, x: int): (r: Vec)
    requires ind < Size(v)
    ensures r.Vec? && Size(r) == Size(v)
    ensures Index(r, ind) == x
    ensures forall i :: 0 <= i < Size(v) && i != ind ==> Elems(r)[i] == Elems(v)[i]
  {
    Vec(Elems(v)[ind := x])
  }

  /** The window the checked accessors accept, as written: index 0 is
      outside it. Shared by the vector and the matrix accessor. */
  predicate InCheckedRange(ind: nat, size: nat) {
    0 < ind < size
  }

  /** Checked accessor `at(ind)` as written. */
  function At(v: Vec, ind: SizeT): (r: Result<int>)
    ensures r.Ok? <==> 0 < ind < Size(v)
    ensures r.Ok? ==> r.value == Index(v, ind)
    ensures r.Err? ==> r.error == IndexOutOfRange
  {
    if InCheckedRange(ind, Size(v)) then Ok(Elems(v)[ind]) else Err(IndexOutOfRange)
  }

  /** Checked accessor with the window every valid offset is in. */
  function AtFromZero(v: Vec, ind: SizeT): (r: Result<int>)
    ensures r.Ok? <==> ind < Size(v)
    ensures r.Ok? ==> r.value == Index(v, ind)
    ensures r.Err? ==> r.error == IndexOutOfRange
  {
    if ind < Size(v) then Ok(Elems(v)[ind]) else Err(IndexOutOfRange)
  }

  /** `operator==`: sizes first, then the elements in order, returning at
      the first difference. */
  method Equal(a: Vec, b: Vec) returns (r: bool)
    ensures r <==> Eq(a, b)
  {
    if Size(a) != Size(b) {
      return false;
    }
    var i := 0;
    while i < Size(a)
      invariant 0 <= i <= Size(a)
      invariant Elems(a)[..i] == Elems(b)[..i]
    {
      if Elems(a)[i] != Elems(b)[i] {
        return false;
      }
      i := i + 1;
    }
    assert Elems(a) == Elems(a)[..i];
    return true;
  }

  /** `operator!=`: its own loop, returning true at the first difference. */
  method NotEqual(a: Vec, b: Vec) returns (r: bool)
    ensures r <==> !Eq(a, b)
  {
    if Size(a) != Size(b) {
      return true;
    }
    var i := 0;
    while i < Size(a)
      invariant 0 <= i <= Size(a)
      invariant Elems(a)[..i] == Elems(b)[..i]
    {
      if Elems(a)[i] != Elems(b)[i] {
        return true;
      }
      i := i + 1;
    }
    assert Elems(a) == Elems(a)[..i];
    return false;
  }

  /** Scalar `operator+`: a new vector with `val` added to every element. */
  function AddScalar(v: Vec, val: int): (r: Vec)
    ensures r.Vec? && Size(r) == Size(v)
    ensures forall i :: 0 <= i < Size(v) ==> Elems(r)[i] == Elems(v)[i] + val
  {
    Vec(seq(Size(v), i requires 0 <= i < Size(v) => Elems(v)[i] + val))
  }

  /** Scalar `operator-`: a new vector with `val` subtracted from every element. */
  function SubScalar(v: Vec, val: int): (r: Vec)
    ensures r.Vec? && Size(r) == Size(v)
    ensures forall i :: 0 <= i < Size(v) ==> Elems(r)[i] == Elems(v)[i] - val
  {
    Vec(seq(Size(v), i requires 0 <= i < Size(v) => Elems(v)[i] - val))
  }

  /** Scalar `operator*`: a new vector with every element multiplied by `val`. */
  function MulScalar(v: Vec, val: int): (r: Vec)
    ensures r.Vec? && Size(r) == Size(v)
    ensures forall i :: 0 <= i < Size(v) ==> Elems(r)[i] == val * Elems(v)[i]
  {
    Vec(seq(Size(v), i requires 0 <= i < Size(v) => val * Elems(v)[i]))
  }

  /** Vector `operator+`: elementwise sum, or a size mismatch. */
  function Add(a: Vec, b: Vec): (r: Result<Vec>)
    ensures r.Err? <==> Size(a) != Size(b)
    ensures r.Err? ==> r.error == SizeMismatch
    ensures r.Ok? ==> r.value.Vec? && Size(r.value) == Size(a)
    ensures r.Ok? ==> forall i :: 0 <= i < Size(a) ==> Elems(r.value)[i] == Elems(a)[i] + Elems(b)[i]
  {
    if Size(a) != Size(b) then Err(SizeMismatch)
    else Ok(Vec(seq(Size(a), i requires 0 <= i < Size(a) => Elems(a)[i] + Elems(b)[i])))
  }

  /** Vector `operator-`: elementwise difference, or a size mismatch. */
  function Sub(a: Vec, b: Vec): (r: Result<Vec>)
    ensures r.Err? <==> Size(a) != Size(b)
    ensures r.Err? ==> r.error == SizeMismatch
    ensures r.Ok? ==> r.value.Vec? && Size(r.value) == Size(a)
    ensures r.Ok? ==> forall i :: 0 <= i < Size(a) ==> Elems(r.value)[i] == Elems(a)[i] - Elems(b)[i]
  {
    if Size(a) != Size(b) then Err(SizeMismatch)
    else Ok(Vec(seq(Size(a), i requires 0 <= i < Size(a) => Elems(a)[i] - Elems(b)[i])))
  }

  /** The accumulator of the dot-product loop after its first `n` steps:
      it starts at 0 and adds `x[k] * y[k]` for k = 0, 1, ..., n - 1. */
  function SumProducts(x: seq<int>, y: seq<int>, n: nat): int
    requires n <= |x| && n <= |y|
  {
    if n == 0 then 0 else SumProducts(x, y, n - 1) + x[n - 1] * y[n - 1]
  }

  /** The sum of `x[i] * y[i]` over all positions, taken from the front. */
  function Sigma(x: seq<int>, y: seq<int>): int
    requires |x| == |y|
  {
    if |x| == 0 then 0 else x[0] * y[0] + Sigma(x[1..], y[1..])
  }

  /** Appending one pair of elements adds their product to the sum. */
  lemma {:induction false} SigmaAppend(x: seq<int>, y: seq<int>, a: int, b: int)
    requires |x| == |y|
    ensures Sigma(x + [a], y + [b]) == Sigma(x, y) + a * b
  {
    if |x| > 0 {
      assert (x + [a])[1..] == x[1..] + [a];
      assert (y + [b])[1..] == y[1..] + [b];
      SigmaAppend(x[1..], y[1..], a, b);
    }
  }

  /** After `n` steps the loop accumulator holds the sum over the first `n`
      positions. */
  lemma {:induction false} SumProductsIsSigma(x: seq<int>, y: seq<int>, n: nat)
    requires n <= |x| && n <= |y|
    ensures SumProducts(x, y, n) == Sigma(x[..n], y[..n])
  {
    if n > 0 {
      SumProductsIsSigma(x, y, n - 1);
      assert x[..n] == x[..n - 1] + [x[n - 1]];
      assert y[..n] == y[..n - 1] + [y[n - 1]];
      SigmaAppend(x[..n - 1], y[..n - 1], x[n - 1], y[n - 1]);
    }
  }

  /** Vector `operator*` (dot product): the accumulator starts at 0 and adds
      the products position by position; or a size mismatch. */
  function Dot(a: Vec, b: Vec): (r: Result<int>)
    ensures r.Err? <==> Size(a) != Size(b)
    ensures r.Err? ==> r.error == SizeMismatch
    ensures r.Ok? ==> r.value == Sigma(Elems(a), Elems(b))
  {
    if Size(a) != Size(b) then Err(SizeMismatch)
    else
      SumProductsIsSigma(Elems(a), Elems(b), Size(a));
      assert Elems(a)[..Size(a)] == Elems(a) && Elems(b)[..Size(b)] == Elems(b);
      Ok(SumProducts(Elems(a), Elems(b), Size(a)))
  }
}
