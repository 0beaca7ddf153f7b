/**
 * creation.cpp: eye (ones on the leading diagonal of a zero buffer of the source's shape)
 * and diag (a vector spread along the diagonal of a |data| x cols zero buffer).
 */
module Creation {
  import opened RowMajor
  import opened Core

  /** Cell (r, c) of `Tensor::eye`: one on the diagonal, zero elsewhere. */
  function EyeCell(r: nat, c: nat): int {
    if r == c then 1 else 0
  }

  /** What `Tensor::eye` returns: the source's rows, cols and is1d with ones on the diagonal. */
  function Eyed(t: Tensor): (u: Tensor)
    ensures WellFormed(u) && u.rows == t.rows && u.cols == t.cols && u.is1d == t.is1d
  {
    Build(t.rows, t.cols, t.is1d, EyeCell)
  }

  /** Cell (i, j) of eye is 1 exactly when i == j; on a square shape that is the identity. */
  lemma {:induction false} EyeAt(t: Tensor)
    ensures var u := Eyed(t);
            forall i, j :: 0 <= i < t.rows && 0 <= j < t.cols ==> At(u, i, j) == if i == j then 1 else 0
  {
    BuildAt(t.rows, t.cols, t.is1d, EyeCell);
  }

  /** The buffer once the loop of eye has written columns 0 .. j - 1. */
  function EyeStage(t: Tensor, j: nat): seq<int> {
    Build(t.rows, t.cols, t.is1d, (r: nat, c: nat) => if r == c && c < j then 1 else 0).data
  }

  lemma {:induction false} EyeStep(t: Tensor, j: nat)
    requires j < t.cols <= t.rows
    ensures 0 <= j * t.cols + j < t.rows * t.cols
    ensures EyeStage(t, j + 1) == EyeStage(t, j)[j * t.cols + j := 1]
  {
    BuildUpdate(t.rows, t.cols, t.is1d, (r: nat, c: nat) => if r == c && c < j then 1 else 0,
                (r: nat, c: nat) => if r == c && c < j + 1 then 1 else 0, j, j);
  }

  /**
   * `Tensor::eye`: ones written at j * cols + j for each column j. The stores stay inside
   * the buffer only when there are at least as many rows as columns.
   */
  method Eye(t: Tensor) returns (u: Tensor)
    requires t.cols <= t.rows
    ensures u == Eyed(t)
  {
    var eye := new int[t.rows * t.cols](_ => 0);
    BuildSame(t.rows, t.cols, t.is1d, (r: nat, c: nat) => if r == c && c < 0 then 1 else 0, (r: nat, c: nat) => 0);
    assert eye[..] == EyeStage(t, 0);
    for j := 0 to t.cols
      invariant eye[..] == EyeStage(t, j)
    {
      EyeStep(t, j);
      eye[j * t.cols + j] := 1;
    }
    BuildSame(t.rows, t.cols, t.is1d, (r: nat, c: nat) => if r == c && c < t.cols then 1 else 0, EyeCell);
    u := Tensor(t.rows, t.cols, t.is1d, eye[..]);
  }

  /** Cell (r, c) of `Tensor::diag`: element r of the source on the diagonal, zero elsewhere. */
  function DiagCell(t: Tensor, r: nat, c: nat): int {
    if r == c && r < |t.data| then t.data[r] else 0
  }

  /** What `Tensor::diag` returns: |data| rows of the source's cols, not 1-d. */
  function Diagonal(t: Tensor): (u: Tensor)
    ensures WellFormed(u) && u.rows == |t.data| && u.cols == t.cols && !u.is1d
  {
    Build(|t.data|, t.cols, false, (r: nat, c: nat) => DiagCell(t, r, c))
  }

  /**
   * On a 1-d tensor of length n, diag is n x n with the data on the diagonal and zeros
   * elsewhere, so the diagonal read back is the source.
   */
  lemma {:induction false} DiagOfVector(t: Tensor)
    requires WellFormed(t) && t.rows == 1
    ensures var u := Diagonal(t);
            u.rows == u.cols == |t.data| &&
            (forall i, j :: 0 <= i < u.rows && 0 <= j < u.cols ==> At(u, i, j) == if i == j then t.data[i] else 0)
    ensures var u := Diagonal(t);
            forall i :: 0 <= i < |t.data| ==> At(u, i, i) == t.data[i]
  {
    BuildAt(|t.data|, t.cols, false, (r: nat, c: nat) => DiagCell(t, r, c));
  }

  /** The buffer once the loop of diag has written rows 0 .. i - 1. */
  function DiagStage(t: Tensor, i: nat): seq<int> {
    Build(|t.data|, t.cols, false, (r: nat, c: nat) => if r < i then DiagCell(t, r, c) else 0).data
  }

  lemma {:induction false} DiagStep(t: Tensor, i: nat)
    requires i < |t.data| <= t.cols
    ensures 0 <= i * t.cols + i < t.cols * |t.data|
    ensures DiagStage(t, i + 1) == DiagStage(t, i)[i * t.cols + i := t.data[i]]
  {
    BuildUpdate(|t.data|, t.cols, false, (r: nat, c: nat) => if r < i then DiagCell(t, r, c) else 0,
                (r: nat, c: nat) => if r < i + 1 then DiagCell(t, r, c) else 0, i, i);
  }

  /**
   * `Tensor::diag`: element i written at i * cols + i. The stores stay inside the buffer only
   * when the data is no longer than a row, as it is for a 1-d tensor.
   */
  method Diag(t: Tensor) returns (u: Tensor)
    requires |t.data| <= t.cols
    ensures u == Diagonal(t)
  {
    var vec := t.data;
    var nrows := |vec|;
    var diag := new int[t.cols * nrows](_ => 0);
    BuildSame(nrows, t.cols, false, (r: nat, c: nat) => if r < 0 then DiagCell(t, r, c) else 0, (r: nat, c: nat) => 0);
    assert diag[..] == DiagStage(t, 0);
    for i := 0 to nrows
      invariant diag[..] == DiagStage(t, i)
    {
      DiagStep(t, i);
      diag[i * t.cols + i] := vec[i];
    }
    BuildSame(nrows, t.cols, false, (r: nat, c: nat) => if r < nrows then DiagCell(t, r, c) else 0,
              (r: nat, c: nat) => DiagCell(t, r, c));
    u := Tensor(nrows, t.cols, false, diag[..]);
  }
}
