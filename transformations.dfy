/**
 * transformations.cpp: reshape's dimension inference (a pure case analysis over the two
 * requested dimensions) and pad (a nested fill loop over a fresh buffer).
 */
module Transformations {
  import opened Wrappers
  import opened RowMajor
  import opened Core

  /** The four failures reshape reports, each carrying the numbers its message prints. */
  datatype ReshapeError =
    | NegativeShape(found: int)
    | CannotInfer(rows: int, cols: int)
    | SizeMismatch(total: nat, rows: int, cols: int)
    | Fractional(total: nat, divisor: int)

  /** The argument fits the C++ `int` parameter. */
  predicate IsInt(x: int) {
    -TWO_31 <= x < TWO_31
  }

  /**
   * `Tensor::reshape` as written. Columns -2 is the null alias (flatten); -1 in either
   * position is inferred. Any other pair that slips past the three guards is cast to
   * `size_t` unchecked. The size guard multiplies exactly, where C++ multiplies in `int`.
   * A successful result shares the source buffer.
   */
  function ReshapeAsWritten(t: Tensor, newRows: int, newCols: int): (r: Result<Tensor, ReshapeError>)
    requires IsInt(newRows) && IsInt(newCols)
    ensures r.Ok? ==> r.value.data == t.data
  {
    var total := |t.data|;
    var rows := newRows;
    var cols := if newCols == -2 then -1 else newCols;
    if rows == -1 && cols < 1 && newCols != -2 then
      Err(NegativeShape(cols))
    else if (rows == 0 && cols == -1) || (rows == -1 && cols == 0) then
      Err(CannotInfer(rows, cols))
    else if rows > 0 && cols > 0 && rows * cols != total then
      Err(SizeMismatch(total, rows, cols))
    else if rows == -1 then
      if newCols == -2 then Ok(Tensor(1, total, true, t.data))
      else if total % cols != 0 then Err(Fractional(total, cols))
      else Ok(Tensor(total / cols, cols, false, t.data))
    else if cols == -1 then
      var divisor := SizeT(rows);
      assert divisor != 0;
      if total % divisor != 0 then Err(Fractional(total, rows))
      else Ok(Tensor(divisor, total / divisor, false, t.data))
    else
      Ok(Tensor(SizeT(rows), SizeT(cols), false, t.data))
  }

  /**
   * Asking for 2 x -5 on four elements passes every guard: the result claims
   * 2 x 4294967291 elements over a buffer of four.
   */
  lemma ReshapeNegativeDimSlipsThrough()
    ensures var t := Tensor(2, 2, false, [1, 2, 3, 4]);
            var r := ReshapeAsWritten(t, 2, -5);
            r == Ok(Tensor(2, TWO_32 - 5, false, t.data)) && !WellFormed(r.value)
  {
  }

  /**
   * A zero dimension passes the guards too: four elements reshaped to 4 x 0, what the host's
   * `reshape([4])` sends, give a tensor of no cells over a buffer of four.
   */
  lemma ReshapeZeroDimSlipsThrough()
    ensures var t := Tensor(2, 2, false, [1, 2, 3, 4]);
            var r := ReshapeAsWritten(t, 4, 0);
            r == Ok(Tensor(4, 0, false, t.data)) && !WellFormed(r.value) &&
            Reshape(t, 4, 0) == Err(SizeMismatch(4, 4, 0))
  {
  }

  /** An explicit (non-wildcard) request that the checks of reshape should have refused. */
  predicate Unchecked(newRows: int, newCols: int, total: nat) {
    newRows != -1 &&
    if newCols == -1 || newCols == -2 then newRows < 0
    else newRows < 0 || newCols < 0 || newRows * newCols != total
  }

  /**
   * reshape with every dimension that is neither a wildcard nor non-negative refused, and
   * two explicit dimensions held to the element count: a request the source accepts and
   * that is sound is answered exactly as the source answers it.
   */
  function Reshape(t: Tensor, newRows: int, newCols: int): (r: Result<Tensor, ReshapeError>)
    requires IsInt(newRows) && IsInt(newCols)
    ensures r.Ok? ==> WellFormed(r.value) && r.value.data == t.data && (r.value.is1d ==> r.value.rows == 1)
    ensures !Unchecked(newRows, newCols, |t.data|) ==> r == ReshapeAsWritten(t, newRows, newCols)
  {
    var total := |t.data|;
    if Unchecked(newRows, newCols, total) then
      if newRows < 0 then Err(NegativeShape(newRows))
      else if newCols < 0 then Err(NegativeShape(newCols))
      else Err(SizeMismatch(total, newRows, newCols))
    else
      var r := ReshapeAsWritten(t, newRows, newCols);
      assert r.Ok? ==> WellFormed(r.value) by {
        if r.Ok? && newRows == -1 && newCols != -2 {
          assert total == (total / newCols) * newCols + total % newCols;
        } else if r.Ok? && newRows != -1 && (newCols == -1 || newCols == -2) {
          assert SizeT(newRows) == newRows;
          assert total == (total / newRows) * newRows + total % newRows;
        }
      }
      r
  }

  /** The inference rules: the null alias flattens, one wildcard is solved from the other. */
  lemma ReshapeInfers(t: Tensor, newRows: int, newCols: int)
    requires IsInt(newRows) && IsInt(newCols)
    ensures newRows == -1 && newCols == -2 ==> Reshape(t, newRows, newCols) == Ok(Tensor(1, |t.data|, true, t.data))
    ensures newRows == -1 && newCols >= 1 && |t.data| % newCols == 0 ==>
              Reshape(t, newRows, newCols) == Ok(Tensor(|t.data| / newCols, newCols, false, t.data))
    ensures newRows >= 1 && newCols == -1 && |t.data| % newRows == 0 ==>
              Reshape(t, newRows, newCols) == Ok(Tensor(newRows, |t.data| / newRows, false, t.data))
    ensures newRows >= 0 && newCols >= 0 && newRows * newCols == |t.data| ==>
              Reshape(t, newRows, newCols) == Ok(Tensor(newRows, newCols, false, t.data))
  {
  }

  /** The failures, in the order the guards are tried. */
  lemma ReshapeFails(t: Tensor, newRows: int, newCols: int)
    requires IsInt(newRows) && IsInt(newCols)
    ensures newRows == -1 && newCols < 1 && newCols != -2 ==> Reshape(t, newRows, newCols) == Err(NegativeShape(newCols))
    ensures newRows == 0 && (newCols == -1 || newCols == -2) ==> Reshape(t, newRows, newCols) == Err(CannotInfer(0, -1))
    ensures newRows > 0 && newCols > 0 && newRows * newCols != |t.data| ==>
              Reshape(t, newRows, newCols) == Err(SizeMismatch(|t.data|, newRows, newCols))
    ensures newRows == -1 && newCols >= 1 && |t.data| % newCols != 0 ==>
              Reshape(t, newRows, newCols) == Err(Fractional(|t.data|, newCols))
    ensures newRows >= 1 && newCols == -1 && |t.data| % newRows != 0 ==>
              Reshape(t, newRows, newCols) == Err(Fractional(|t.data|, newRows))
  {
  }

  /** The value of cell (r, c) of the padded tensor. */
  function PadCell(t: Tensor, constant: int, rb: nat, cb: nat, r: nat, c: nat): int
    requires WellFormed(t)
  {
    if rb <= r < rb + t.rows && cb <= c < cb + t.cols then At(t, r - rb, c - cb) else constant
  }

  /** The tensor `Tensor::pad` builds: the source placed at offset (rb, cb) in a field of `constant`. */
  function Padded(t: Tensor, constant: int, rb: nat, ra: nat, cb: nat, ca: nat): (p: Tensor)
    requires WellFormed(t)
    ensures WellFormed(p) && p.rows == t.rows + rb + ra && p.cols == t.cols + cb + ca && p.is1d == t.is1d
  {
    Build(t.rows + rb + ra, t.cols + cb + ca, t.is1d, (r: nat, c: nat) => PadCell(t, constant, rb, cb, r, c))
  }

  /** The source sits unchanged at offset (rb, cb); everything around it is the constant. */
  lemma {:induction false} PadPlacesSource(t: Tensor, constant: int, rb: nat, ra: nat, cb: nat, ca: nat)
    requires WellFormed(t)
    ensures var p := Padded(t, constant, rb, ra, cb, ca);
            forall i, j :: 0 <= i < t.rows && 0 <= j < t.cols ==> At(p, rb + i, cb + j) == At(t, i, j)
    ensures var p := Padded(t, constant, rb, ra, cb, ca);
            forall i, j :: 0 <= i < p.rows && 0 <= j < p.cols && !(rb <= i < rb + t.rows && cb <= j < cb + t.cols) ==>
              At(p, i, j) == constant
  {
    BuildAt(t.rows + rb + ra, t.cols + cb + ca, t.is1d, (r: nat, c: nat) => PadCell(t, constant, rb, cb, r, c));
    var p := Padded(t, constant, rb, ra, cb, ca);
    forall i, j | 0 <= i < t.rows && 0 <= j < t.cols
      ensures At(p, rb + i, cb + j) == At(t, i, j)
    {
      assert PadCell(t, constant, rb, cb, rb + i, cb + j) == At(t, i, j);
    }
  }

  /** Padding by nothing gives back the source. */
  lemma {:induction false} PadZeroIsIdentity(t: Tensor, constant: int)
    requires WellFormed(t)
    ensures Padded(t, constant, 0, 0, 0, 0) == t
  {
    var p := Padded(t, constant, 0, 0, 0, 0);
    BuildAt(t.rows, t.cols, t.is1d, (r: nat, c: nat) => PadCell(t, constant, 0, 0, r, c));
    SameAt(p, t);
  }

  /** Cell (r, c) has been written once the fill loop is past it. */
  predicate Filled(r: nat, c: nat, i: nat, j: nat) {
    r < i || (r == i && c < j)
  }

  /** Cell (r, c) of the padded buffer while the fill loop stands at (i, j). */
  function PadProgress(t: Tensor, constant: int, rb: nat, cb: nat, i: nat, j: nat, r: nat, c: nat): int
    requires WellFormed(t)
  {
    if Filled(r, c, i, j) then PadCell(t, constant, rb, cb, r, c) else constant
  }

  /** The padded buffer while the fill loop stands at (i, j). */
  function PadStage(t: Tensor, constant: int, rb: nat, ra: nat, cb: nat, ca: nat, i: nat, j: nat): seq<int>
    requires WellFormed(t)
  {
    Build(t.rows + rb + ra, t.cols + cb + ca, t.is1d, (r: nat, c: nat) => PadProgress(t, constant, rb, cb, i, j, r, c)).data
  }

  /** Before the loop nothing is written: the buffer is all constant. */
  lemma {:induction false} PadStageStart(t: Tensor, constant: int, rb: nat, ra: nat, cb: nat, ca: nat)
    requires WellFormed(t)
    ensures PadStage(t, constant, rb, ra, cb, ca, rb, 0) == seq((t.rows + rb + ra) * (t.cols + cb + ca), _ => constant)
  {
    BuildSame(t.rows + rb + ra, t.cols + cb + ca, t.is1d, (r: nat, c: nat) => PadProgress(t, constant, rb, cb, rb, 0, r, c),
              (r: nat, c: nat) => constant);
  }

  /** Cells left of the block in row i are constant whether or not they count as written. */
  lemma {:induction false} PadStageRowStart(t: Tensor, constant: int, rb: nat, ra: nat, cb: nat, ca: nat, i: nat)
    requires WellFormed(t)
    ensures PadStage(t, constant, rb, ra, cb, ca, i, 0) == PadStage(t, constant, rb, ra, cb, ca, i, cb)
  {
    BuildSame(t.rows + rb + ra, t.cols + cb + ca, t.is1d, (r: nat, c: nat) => PadProgress(t, constant, rb, cb, i, 0, r, c),
              (r: nat, c: nat) => PadProgress(t, constant, rb, cb, i, cb, r, c));
  }

  /** Cells right of the block in row i are constant too, so finishing row i starts row i + 1. */
  lemma {:induction false} PadStageRowEnd(t: Tensor, constant: int, rb: nat, ra: nat, cb: nat, ca: nat, i: nat)
    requires WellFormed(t)
    ensures PadStage(t, constant, rb, ra, cb, ca, i, t.cols + cb) == PadStage(t, constant, rb, ra, cb, ca, i + 1, 0)
  {
    BuildSame(t.rows + rb + ra, t.cols + cb + ca, t.is1d, (r: nat, c: nat) => PadProgress(t, constant, rb, cb, i, t.cols + cb, r, c),
              (r: nat, c: nat) => PadProgress(t, constant, rb, cb, i + 1, 0, r, c));
  }

  /** One store of the inner loop. */
  lemma {:induction false} PadStageStep(t: Tensor, constant: int, rb: nat, ra: nat, cb: nat, ca: nat, i: nat, j: nat)
    requires WellFormed(t) && rb <= i < rb + t.rows && cb <= j < cb + t.cols
    ensures 0 <= (i - rb) * t.cols + (j - cb) < |t.data|
    ensures 0 <= i * (t.cols + cb + ca) + j < |PadStage(t, constant, rb, ra, cb, ca, i, j)|
    ensures PadStage(t, constant, rb, ra, cb, ca, i, j + 1) ==
            PadStage(t, constant, rb, ra, cb, ca, i, j)[i * (t.cols + cb + ca) + j := t.data[(i - rb) * t.cols + (j - cb)]]
  {
    FlatBound(i - rb, j - cb, t.rows, t.cols);
    BuildUpdate(t.rows + rb + ra, t.cols + cb + ca, t.is1d, (r: nat, c: nat) => PadProgress(t, constant, rb, cb, i, j, r, c),
                (r: nat, c: nat) => PadProgress(t, constant, rb, cb, i, j + 1, r, c), i, j);
  }

  /** After the last block row every cell holds its final value. */
  lemma {:induction false} PadStageEnd(t: Tensor, constant: int, rb: nat, ra: nat, cb: nat, ca: nat)
    requires WellFormed(t)
    ensures PadStage(t, constant, rb, ra, cb, ca, t.rows + rb, 0) == Padded(t, constant, rb, ra, cb, ca).data
  {
    BuildSame(t.rows + rb + ra, t.cols + cb + ca, t.is1d, (r: nat, c: nat) => PadProgress(t, constant, rb, cb, t.rows + rb, 0, r, c),
              (r: nat, c: nat) => PadCell(t, constant, rb, cb, r, c));
  }

  /** `Tensor::pad`: fill a fresh buffer with the constant, then copy the source block row by row. */
  method Pad(t: Tensor, constant: int, rb: nat, ra: nat, cb: nat, ca: nat) returns (p: Tensor)
    requires WellFormed(t)
    ensures p == Padded(t, constant, rb, ra, cb, ca)
  {
    var nrows := t.rows + rb + ra;
    var ncols := t.cols + cb + ca;
    var newSize := ncols * nrows;
    var padded := new int[newSize](_ => constant);
    PadStageStart(t, constant, rb, ra, cb, ca);
    for i := rb to nrows - ra
      invariant padded[..] == PadStage(t, constant, rb, ra, cb, ca, i, 0)
    {
      PadRow(padded, t, constant, rb, ra, cb, ca, i);
    }
    PadStageEnd(t, constant, rb, ra, cb, ca);
    p := Tensor(nrows, ncols, t.is1d, padded[..]);
  }

  /** The inner loop of pad: source row i - rb copied into columns cb .. cb + cols of row i. */
  method PadRow(padded: array<int>, t: Tensor, constant: int, rb: nat, ra: nat, cb: nat, ca: nat, i: nat)
    requires WellFormed(t) && rb <= i < rb + t.rows
    requires padded[..] == PadStage(t, constant, rb, ra, cb, ca, i, 0)
    modifies padded
    ensures padded[..] == PadStage(t, constant, rb, ra, cb, ca, i + 1, 0)
  {
    var ncols := t.cols + cb + ca;
    var rindex := i - rb;
    PadStageRowStart(t, constant, rb, ra, cb, ca, i);
    for j := cb to ncols - ca
      invariant padded[..] == PadStage(t, constant, rb, ra, cb, ca, i, j)
    {
      PadStageStep(t, constant, rb, ra, cb, ca, i, j);
      var cindex := rindex * t.cols + (j - cb);
      padded[i * ncols + j] := t.data[cindex];
    }
    PadStageRowEnd(t, constant, rb, ra, cb, ca, i);
  }
}
