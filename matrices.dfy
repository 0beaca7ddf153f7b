/**
 * matrices.cpp: transpose (a scatter loop into a zero buffer of the swapped shape), matmul
 * over int (a triple loop accumulating with +=) and the shape and axis rules of norm.
 */
module Matrices {
  import opened Wrappers
  import opened RowMajor
  import opened Core
  import opened Creation

  /** What `Tensor::transpose` returns: cols x rows with cell (p, q) = source (q, p); is1d kept. */
  function Transposed(t: Tensor): (u: Tensor)
    requires WellFormed(t)
    ensures WellFormed(u) && u.rows == t.cols && u.cols == t.rows && u.is1d == t.is1d
  {
    Build(t.cols, t.rows, t.is1d, (p: nat, q: nat) => Get(t, q, p))
  }

  /** The index map of transpose: result[j * rows + i] = source[i * cols + j]. */
  lemma {:induction false} TransposedAt(t: Tensor)
    requires WellFormed(t)
    ensures var u := Transposed(t);
            forall i, j :: 0 <= i < t.rows && 0 <= j < t.cols ==> At(u, j, i) == At(t, i, j)
  {
    BuildAt(t.cols, t.rows, t.is1d, (p: nat, q: nat) => Get(t, q, p));
  }

  /** Transposing twice gives back the source, shape and data. */
  lemma {:induction false} TransposeTwice(t: Tensor)
    requires WellFormed(t)
    ensures Transposed(Transposed(t)) == t
  {
    var u := Transposed(t);
    TransposedAt(t);
    TransposedAt(u);
    SameAt(Transposed(u), t);
  }

  /** The buffer once the loop of transpose has passed source cell (i, j) in row-major order. */
  function TransposeStage(t: Tensor, i: nat, j: nat): seq<int>
    requires WellFormed(t)
  {
    Build(t.cols, t.rows, t.is1d, (p: nat, q: nat) => if q < i || (q == i && p < j) then Get(t, q, p) else 0).data
  }

  lemma {:induction false} TransposeStep(t: Tensor, i: nat, j: nat)
    requires WellFormed(t) && i < t.rows && j < t.cols
    ensures 0 <= i * t.cols + j < |t.data| && 0 <= j * t.rows + i < |t.data|
    ensures TransposeStage(t, i, j + 1) == TransposeStage(t, i, j)[j * t.rows + i := t.data[i * t.cols + j]]
  {
    FlatBound(i, j, t.rows, t.cols);
    FlatBound(j, i, t.cols, t.rows);
    BuildUpdate(t.cols, t.rows, t.is1d, (p: nat, q: nat) => if q < i || (q == i && p < j) then Get(t, q, p) else 0,
                (p: nat, q: nat) => if q < i || (q == i && p < j + 1) then Get(t, q, p) else 0, j, i);
  }

  lemma {:induction false} TransposeRowDone(t: Tensor, i: nat)
    requires WellFormed(t)
    ensures TransposeStage(t, i, t.cols) == TransposeStage(t, i + 1, 0)
  {
    BuildSame(t.cols, t.rows, t.is1d, (p: nat, q: nat) => if q < i || (q == i && p < t.cols) then Get(t, q, p) else 0,
              (p: nat, q: nat) => if q < i + 1 || (q == i + 1 && p < 0) then Get(t, q, p) else 0);
  }

  /** `Tensor::transpose`: every source cell (i, j) is stored at j * rows + i of a fresh zero buffer. */
  method Transpose(t: Tensor) returns (u: Tensor)
    requires WellFormed(t)
    ensures u == Transposed(t)
  {
    var vec := new int[t.cols * t.rows](_ => 0);
    BuildSame(t.cols, t.rows, t.is1d, (p: nat, q: nat) => if q < 0 || (q == 0 && p < 0) then Get(t, q, p) else 0,
              (p: nat, q: nat) => 0);
    assert vec[..] == TransposeStage(t, 0, 0);
    for i := 0 to t.rows
      invariant vec[..] == TransposeStage(t, i, 0)
    {
      for j := 0 to t.cols
        invariant vec[..] == TransposeStage(t, i, j)
      {
        TransposeStep(t, i, j);
        vec[j * t.rows + i] := t.data[i * t.cols + j];
      }
      TransposeRowDone(t, i);
    }
    BuildSame(t.cols, t.rows, t.is1d, (p: nat, q: nat) => if q < t.rows || (q == t.rows && p < 0) then Get(t, q, p) else 0,
              (p: nat, q: nat) => Get(t, q, p));
    u := Tensor(t.cols, t.rows, t.is1d, vec[..]);
  }

  /** The sum over k < n of a[i, k] * b[k, j]. */
  function Dot(a: Tensor, b: Tensor, i: nat, j: nat, n: nat): int
    requires WellFormed(a) && WellFormed(b)
  {
    if n == 0 then 0 else Dot(a, b, i, j, n - 1) + Get(a, i, n - 1) * Get(b, n - 1, j)
  }

  /** The product matrix: rows x other.cols, is1d taken from the left operand. */
  function Product(a: Tensor, b: Tensor): (p: Tensor)
    requires WellFormed(a) && WellFormed(b)
    ensures WellFormed(p) && p.rows == a.rows && p.cols == b.cols && p.is1d == a.is1d
  {
    Build(a.rows, b.cols, a.is1d, (i: nat, j: nat) => Dot(a, b, i, j, a.cols))
  }

  /** Entry (i, j) of the product is the sum over k of a[i, k] * b[k, j]. */
  lemma {:induction false} ProductAt(a: Tensor, b: Tensor)
    requires WellFormed(a) && WellFormed(b)
    ensures var p := Product(a, b);
            forall i, j :: 0 <= i < a.rows && 0 <= j < b.cols ==> At(p, i, j) == Dot(a, b, i, j, a.cols)
  {
    BuildAt(a.rows, b.cols, a.is1d, (i: nat, j: nat) => Dot(a, b, i, j, a.cols));
  }

  /** A sum whose only possibly non-zero term is term i. */
  lemma {:induction false} DotWithEye(e: Tensor, m: Tensor, i: nat, j: nat, n: nat)
    requires WellFormed(m) && e == Eyed(e) && i < e.rows && j < m.cols && n <= e.cols && e.cols <= m.rows
    ensures Dot(e, m, i, j, n) == if i < n then Get(m, i, j) else 0
  {
    if n > 0 {
      DotWithEye(e, m, i, j, n - 1);
      EyeAt(e);
      assert Get(e, i, n - 1) == if i == n - 1 then 1 else 0;
    }
  }

  /** The identity of eye is neutral on the left of matmul. */
  lemma {:induction false} EyeIsLeftIdentity(e: Tensor, m: Tensor)
    requires WellFormed(m) && e == Eyed(e) && e.rows == e.cols == m.rows
    ensures WellFormed(e) && Product(e, m).data == m.data
  {
    var p := Product(e, m);
    ProductAt(e, m);
    forall i, j | 0 <= i < p.rows && 0 <= j < p.cols
      ensures At(p, i, j) == At(m, i, j)
    {
      DotWithEye(e, m, i, j, e.cols);
    }
    SameAt(p, m.(is1d := p.is1d));
  }

  /** Each term of a[i,k] * b[k,j] reappears, factors swapped, in the transposed product. */
  lemma {:induction false} DotTransposed(a: Tensor, b: Tensor, i: nat, j: nat, n: nat)
    requires WellFormed(a) && WellFormed(b) && i < a.rows && j < b.cols && n <= a.cols && n <= b.rows
    ensures Dot(Transposed(b), Transposed(a), j, i, n) == Dot(a, b, i, j, n)
  {
    if n > 0 {
      DotTransposed(a, b, i, j, n - 1);
      TransposedAt(a);
      TransposedAt(b);
      assert Get(Transposed(b), j, n - 1) == Get(b, n - 1, j);
      assert Get(Transposed(a), n - 1, i) == Get(a, i, n - 1);
    }
  }

  /** (a b)^T = b^T a^T, shape and data (is1d follows the left operand on each side). */
  lemma {:induction false} ProductTransposed(a: Tensor, b: Tensor)
    requires WellFormed(a) && WellFormed(b) && a.cols == b.rows
    ensures var l, r := Transposed(Product(a, b)), Product(Transposed(b), Transposed(a));
            l.rows == r.rows && l.cols == r.cols && l.data == r.data
  {
    var l, r := Transposed(Product(a, b)), Product(Transposed(b), Transposed(a));
    TransposedAt(Product(a, b));
    ProductAt(a, b);
    ProductAt(Transposed(b), Transposed(a));
    forall p, q | 0 <= p < l.rows && 0 <= q < l.cols
      ensures At(l, p, q) == At(r, p, q)
    {
      DotTransposed(a, b, q, p, a.cols);
    }
    SameAt(l, r.(is1d := l.is1d));
  }

  /** The failures of matrices.cpp, by the message `report_error` is given. */
  datatype MatrixError = IncompatibleShapes | UnsupportedNorm | BadAxis

  /** The buffer once the loops of matmul have finished entry (i, j) in row-major order. */
  function ProductStage(a: Tensor, b: Tensor, i: nat, j: nat): seq<int>
    requires WellFormed(a) && WellFormed(b)
  {
    Build(a.rows, b.cols, a.is1d, (p: nat, q: nat) => if p < i || (p == i && q < j) then Dot(a, b, p, q, a.cols) else 0).data
  }

  lemma {:induction false} ProductStep(a: Tensor, b: Tensor, i: nat, j: nat)
    requires WellFormed(a) && WellFormed(b) && i < a.rows && j < b.cols
    ensures 0 <= i * b.cols + j < a.rows * b.cols
    ensures ProductStage(a, b, i, j)[i * b.cols + j] == 0
    ensures ProductStage(a, b, i, j + 1) == ProductStage(a, b, i, j)[i * b.cols + j := Dot(a, b, i, j, a.cols)]
  {
    BuildUpdate(a.rows, b.cols, a.is1d, (p: nat, q: nat) => if p < i || (p == i && q < j) then Dot(a, b, p, q, a.cols) else 0,
                (p: nat, q: nat) => if p < i || (p == i && q < j + 1) then Dot(a, b, p, q, a.cols) else 0, i, j);
    Decode(i, j, b.cols);
  }

  lemma {:induction false} ProductRowDone(a: Tensor, b: Tensor, i: nat)
    requires WellFormed(a) && WellFormed(b)
    ensures ProductStage(a, b, i, b.cols) == ProductStage(a, b, i + 1, 0)
  {
    BuildSame(a.rows, b.cols, a.is1d, (p: nat, q: nat) => if p < i || (p == i && q < b.cols) then Dot(a, b, p, q, a.cols) else 0,
              (p: nat, q: nat) => if p < i + 1 || (p == i + 1 && q < 0) then Dot(a, b, p, q, a.cols) else 0);
  }

  /** One `+=` of the innermost loop of matmul. */
  lemma MatMulTerm(a: Tensor, b: Tensor, i: nat, j: nat, k: nat)
    requires WellFormed(a) && WellFormed(b) && a.cols == b.rows && i < a.rows && j < b.cols && k < a.cols
    ensures 0 <= i * a.cols + k < |a.data| && 0 <= k * b.cols + j < |b.data|
    ensures Dot(a, b, i, j, k + 1) == Dot(a, b, i, j, k) + a.data[i * a.cols + k] * b.data[k * b.cols + j]
  {
    FlatBound(i, k, a.rows, a.cols);
    FlatBound(k, j, b.rows, b.cols);
  }

  /** The innermost loop of matmul: entry w gains the sum over k of a[i, k] * b[k, j]. */
  method Accumulate(vec: array<int>, w: nat, a: Tensor, b: Tensor, i: nat, j: nat)
    requires WellFormed(a) && WellFormed(b) && a.cols == b.rows && i < a.rows && j < b.cols && w < vec.Length
    modifies vec
    ensures vec[..] == old(vec[..])[w := old(vec[w]) + Dot(a, b, i, j, a.cols)]
  {
    ghost var before := vec[..];
    for k := 0 to a.cols
      invariant vec[..] == before[w := before[w] + Dot(a, b, i, j, k)]
    {
      MatMulTerm(a, b, i, j, k);
      vec[w] := vec[w] + a.data[i * a.cols + k] * b.data[k * b.cols + j];
    }
  }

  /**
   * `Tensor::matmul` over int: an error unless cols == other.rows, otherwise the product,
   * accumulated entry by entry into a zero buffer.
   */
  method MatMul(a: Tensor, b: Tensor) returns (r: Result<Tensor, MatrixError>)
    requires WellFormed(a) && WellFormed(b)
    ensures a.cols != b.rows ==> r == Err(IncompatibleShapes)
    ensures a.cols == b.rows ==> r == Ok(Product(a, b))
  {
    if a.cols != b.rows {
      return Err(IncompatibleShapes);
    }
    var resultRows, resultCols := a.rows, b.cols;
    var vec := new int[resultRows * b.cols](_ => 0);
    BuildSame(a.rows, b.cols, a.is1d, (p: nat, q: nat) => if p < 0 || (p == 0 && q < 0) then Dot(a, b, p, q, a.cols) else 0,
              (p: nat, q: nat) => 0);
    assert vec[..] == ProductStage(a, b, 0, 0);
    for i := 0 to resultRows
      invariant vec[..] == ProductStage(a, b, i, 0)
    {
      for j := 0 to resultCols
        invariant vec[..] == ProductStage(a, b, i, j)
      {
        ProductStep(a, b, i, j);
        Accumulate(vec, i * resultCols + j, a, b, i, j);
      }
      ProductRowDone(a, b, i);
    }
    BuildSame(a.rows, b.cols, a.is1d, (p: nat, q: nat) => if p < a.rows || (p == a.rows && q < 0) then Dot(a, b, p, q, a.cols) else 0,
              (p: nat, q: nat) => Dot(a, b, p, q, a.cols));
    r := Ok(Tensor(resultRows, resultCols, a.is1d, vec[..]));
  }

  /**
   * The shape `Tensor::norm` returns: 1 x 1 for axis -1, 1 x cols for axis 0, rows x 1 for
   * axis 1, 1-d only when flat and not keepdims. Axis -1 also rejects an unknown order.
   */
  function NormShape(t: Tensor, ord: int, axis: int, keepdims: bool): (r: Result<Shape, MatrixError>)
    ensures r.Ok? <==> axis == 0 || axis == 1 || (axis == -1 && 0 <= ord <= 2)
    ensures axis !in {-1, 0, 1} ==> r == Err(BadAxis)
    ensures axis == -1 && ord !in {0, 1, 2} ==> r == Err(UnsupportedNorm)
    ensures r.Ok? ==> r.value.is1d == (!keepdims && axis < 0)
    ensures r.Ok? ==> r.value.rows == (if axis == 1 then t.rows else 1) && r.value.cols == (if axis == 0 then t.cols else 1)
  {
    if axis == -1 then
      if ord !in {0, 1, 2} then Err(UnsupportedNorm) else Ok(Shape(1, 1, !keepdims))
    else if axis == 0 then Ok(Shape(1, t.cols, false))
    else if axis == 1 then Ok(Shape(t.rows, 1, false))
    else Err(BadAxis)
  }
}
