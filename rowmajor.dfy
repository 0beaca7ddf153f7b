/**
 * Index arithmetic of the row-major layout used by every kernel: element (i, j) of a
 * rows x cols buffer lives at i * cols + j.
 */
module RowMajor {

  lemma MulLe(a: int, b: int, c: int)
    requires 0 <= a <= b && 0 <= c
    ensures a * c <= b * c
  {
    assert b * c - a * c == (b - a) * c;
  }

  /** Flat index (i, j) lies inside a rows x cols buffer. */
  lemma FlatBound(i: int, j: int, rows: int, cols: int)
    requires 0 <= i < rows && 0 <= j < cols
    ensures 0 <= i * cols + j < rows * cols
  {
    MulLe(0, i, cols);
    MulLe(i + 1, rows, cols);
  }

  /** A strictly larger factor adds at least one more c. */
  lemma MulLt(a: int, b: int, c: int)
    requires a < b && 0 <= c
    ensures a * c + c <= b * c
  {
    MulLe(1, b - a, c);
    assert b * c - a * c == (b - a) * c;
  }

  /** One more row adds one more row's worth of elements. */
  lemma MulSucc(a: int, c: int)
    ensures (a + 1) * c == a * c + c
  {
    assert (a + 1) * c == a * c + 1 * c;
  }

  /** Moving the middle factor of a row-major size to the front. */
  lemma MulRotate(a: int, b: int, c: int)
    ensures a * b * c == b * (a * c)
  {
    assert a * b == b * a;
    assert (b * a) * c == b * (a * c);
  }

  /** Euclidean quotient and remainder are unique. */
  lemma DivModUnique(x: int, d: int, q: int, r: int)
    requires d > 0 && 0 <= r < d && x == q * d + r
    ensures x / d == q && x % d == r
  {
    var q', r' := x / d, x % d;
    assert x == q' * d + r';
    if q' < q {
      MulLt(q', q, d);
    } else if q < q' {
      MulLt(q, q', d);
    }
  }

  /** The row and column of flat index i * cols + j are i and j. */
  lemma Decode(i: int, j: int, cols: int)
    requires 0 <= i && 0 <= j < cols
    ensures (i * cols + j) / cols == i && (i * cols + j) % cols == j
  {
    DivModUnique(i * cols + j, cols, i, j);
  }

  /** Every flat index of a rows x cols buffer splits into a row below rows and a column below cols. */
  lemma Split(k: int, rows: nat, cols: nat)
    requires 0 <= k < rows * cols
    ensures cols > 0 && 0 <= k / cols < rows && 0 <= k % cols < cols
    ensures k == (k / cols) * cols + k % cols
  {
    if k / cols >= rows {
      MulLe(rows, k / cols, cols);
    }
  }

  /** Flat index k lies in row r exactly when k / cols == r. */
  lemma RowRange(k: int, r: int, cols: int)
    requires 0 <= k && 0 <= r && cols > 0
    ensures (r * cols <= k < r * cols + cols) <==> k / cols == r
  {
    var i, c := k / cols, k % cols;
    assert k == i * cols + c;
    if i < r {
      MulLe(i + 1, r, cols);
    } else if i > r {
      MulLe(r + 1, i, cols);
    }
  }
}
