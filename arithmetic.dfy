/**
 * arithmetic.cpp over int: the broadcast dispatch shared by add, sub and mul (scalar, row
 * vector, or full size, in that order), and the shape-checked elementwise maximum, minimum
 * and squared_diff with their scalar forms.
 */
module Arithmetic {
  import opened Wrappers
  import opened RowMajor
  import opened Core
  import Folds

  /** The compound assignment each of add, sub and mul applies. */
  datatype Op = Plus | Minus | Times

  function Apply(op: Op, x: int, y: int): int {
    match op
    case Plus => x + y
    case Minus => x - y
    case Times => x * y
  }

  /** `std::invalid_argument` from the dispatch, and from the shape check of the binary forms. */
  datatype ArithError = NotBroadcastable | ShapesDiffer

  /** The operand of flat element k under row-vector broadcast: input[k % cols]. */
  function RowOperand(input: seq<int>, k: nat): int {
    if |input| > 0 then input[k % |input|] else 0
  }

  /**
   * What add / sub / mul return for `input` of `input_size` elements: a scalar applied to every
   * element, then a row vector applied to each row, then an operand of the full size applied
   * element by element; any other size is refused. The result keeps the source's shape.
   */
  function Combined(op: Op, t: Tensor, input: seq<int>): (r: Result<Tensor, ArithError>)
    requires WellFormed(t)
    ensures r.Ok? ==> WellFormed(r.value) && r.value.rows == t.rows && r.value.cols == t.cols && r.value.is1d == t.is1d
    ensures r.Err? <==> |input| != 1 && |input| != t.cols && |input| != t.cols * t.rows
  {
    var n := |t.data|;
    if |input| == 1 then
      Ok(t.(data := seq(n, k requires 0 <= k < n => Apply(op, t.data[k], input[0]))))
    else if |input| == t.cols then
      Ok(t.(data := seq(n, k requires 0 <= k < n => Apply(op, t.data[k], RowOperand(input, k)))))
    else if |input| == t.cols * t.rows then
      Ok(t.(data := seq(n, k requires 0 <= k < n => Apply(op, t.data[k], input[k]))))
    else
      Err(NotBroadcastable)
  }

  /** One cell of the row-vector rule: flat index i * cols + j takes operand j. */
  lemma RowOperandAt(input: seq<int>, i: nat, j: nat)
    requires j < |input|
    ensures RowOperand(input, i * |input| + j) == input[j]
  {
    Decode(i, j, |input|);
  }

  /** The three broadcast rules, cell by cell, in their order of priority. */
  lemma {:induction false} CombinedAt(op: Op, t: Tensor, input: seq<int>, i: nat, j: nat)
    requires WellFormed(t) && Combined(op, t, input).Ok? && i < t.rows && j < t.cols
    ensures 0 <= i * t.cols + j < |t.data|
    ensures var u := Combined(op, t, input).value;
            if |input| == 1 then At(u, i, j) == Apply(op, At(t, i, j), input[0])
            else if |input| == t.cols then At(u, i, j) == Apply(op, At(t, i, j), input[j])
            else At(u, i, j) == Apply(op, At(t, i, j), input[i * t.cols + j])
  {
    FlatBound(i, j, t.rows, t.cols);
    if |input| != 1 && |input| == t.cols {
      RowOperandAt(input, i, j);
    }
  }

  /**
   * Subtracting what was added gives back the source: sub undoes add for every operand.
   * This holds for the integer elements of this model; float32 addition rounds, so the
   * source gives it only approximately.
   */
  lemma {:induction false} SubUndoesAdd(t: Tensor, input: seq<int>)
    requires WellFormed(t) && Combined(Plus, t, input).Ok?
    ensures Combined(Minus, Combined(Plus, t, input).value, input) == Ok(t)
  {
    var u := Combined(Plus, t, input).value;
    assert Combined(Minus, u, input).value.data == t.data;
  }

  /** The range-for of the scalar rule: `elem op= scalar` for every element. */
  method ApplyScalar(vec: array<int>, op: Op, scalar: int)
    modifies vec
    ensures forall m :: 0 <= m < vec.Length ==> vec[m] == Apply(op, old(vec[m]), scalar)
  {
    for k := 0 to vec.Length
      invariant forall m :: 0 <= m < vec.Length ==> vec[m] == if m < k then Apply(op, old(vec[m]), scalar) else old(vec[m])
    {
      vec[k] := Apply(op, vec[k], scalar);
    }
  }

  /** The nested loops of the row-vector rule: `vec[i * cols + j] op= input[j]`. */
  method ApplyRow(vec: array<int>, op: Op, rows: nat, cols: nat, input: seq<int>)
    requires vec.Length == rows * cols && |input| == cols
    modifies vec
    ensures forall m :: 0 <= m < vec.Length ==> vec[m] == Apply(op, old(vec[m]), RowOperand(input, m))
  {
    for i := 0 to rows
      invariant forall m :: 0 <= m < vec.Length ==>
        vec[m] == if m < i * cols then Apply(op, old(vec[m]), RowOperand(input, m)) else old(vec[m])
    {
      for j := 0 to cols
        invariant forall m :: 0 <= m < vec.Length ==>
          vec[m] == if m < i * cols + j then Apply(op, old(vec[m]), RowOperand(input, m)) else old(vec[m])
      {
        FlatBound(i, j, rows, cols);
        RowOperandAt(input, i, j);
        vec[i * cols + j] := Apply(op, vec[i * cols + j], input[j]);
      }
      assert i * cols + cols == (i + 1) * cols;
    }
  }

  /** The nested loops of the full-size rule: `vec[i * cols + j] op= input[i * cols + j]`. */
  method ApplyFull(vec: array<int>, op: Op, rows: nat, cols: nat, input: seq<int>)
    requires vec.Length == rows * cols == |input|
    modifies vec
    ensures forall m :: 0 <= m < vec.Length ==> vec[m] == Apply(op, old(vec[m]), input[m])
  {
    for i := 0 to rows
      invariant forall m :: 0 <= m < vec.Length ==>
        vec[m] == if m < i * cols then Apply(op, old(vec[m]), input[m]) else old(vec[m])
    {
      for j := 0 to cols
        invariant forall m :: 0 <= m < vec.Length ==>
          vec[m] == if m < i * cols + j then Apply(op, old(vec[m]), input[m]) else old(vec[m])
      {
        FlatBound(i, j, rows, cols);
        vec[i * cols + j] := Apply(op, vec[i * cols + j], input[i * cols + j]);
      }
      assert i * cols + cols == (i + 1) * cols;
    }
  }

  /** add / sub / mul: the work is done on a deep copy of the source buffer. */
  method Arith(op: Op, t: Tensor, input: seq<int>) returns (r: Result<Tensor, ArithError>)
    requires WellFormed(t)
    ensures r == Combined(op, t, input)
  {
    var vec := new int[|t.data|](k requires 0 <= k < |t.data| => t.data[k]);
    if |input| == 1 {
      ApplyScalar(vec, op, input[0]);
    } else if |input| == t.cols {
      ApplyRow(vec, op, t.rows, t.cols, input);
    } else if |input| == t.cols * t.rows {
      ApplyFull(vec, op, t.rows, t.cols, input);
    } else {
      return Err(NotBroadcastable);
    }
    r := Ok(t.(data := vec[..]));
    assert vec[..] == Combined(op, t, input).value.data;
  }

  /** The elementwise binary operations that do not go through the broadcast dispatch. */
  datatype Pairwise = MaxOf | MinOf | SquaredDiff

  function Pair(op: Pairwise, x: int, y: int): int {
    match op
    case MaxOf => Folds.Max(x, y)
    case MinOf => Folds.Min(x, y)
    case SquaredDiff => (x - y) * (x - y)
  }

  /** maximum / minimum / squared_diff against a tensor: the shapes must agree; is1d comes from the left. */
  function Paired(op: Pairwise, a: Tensor, b: Tensor): (r: Result<Tensor, ArithError>)
    requires WellFormed(a) && WellFormed(b)
    ensures r.Err? <==> a.rows != b.rows || a.cols != b.cols
    ensures r.Ok? ==> WellFormed(r.value) && r.value.rows == a.rows && r.value.cols == a.cols && r.value.is1d == a.is1d
  {
    if a.cols != b.cols || a.rows != b.rows then Err(ShapesDiffer)
    else Ok(a.(data := seq(|a.data|, k requires 0 <= k < |a.data| => Pair(op, a.data[k], b.data[k]))))
  }

  /** The scalar forms: every element against the one scalar. */
  function PairedScalar(op: Pairwise, a: Tensor, s: int): (u: Tensor)
    requires WellFormed(a)
    ensures WellFormed(u) && u.rows == a.rows && u.cols == a.cols && u.is1d == a.is1d
  {
    a.(data := seq(|a.data|, k requires 0 <= k < |a.data| => Pair(op, a.data[k], s)))
  }

  /** A tensor of a's shape holding s everywhere. */
  function Constant(a: Tensor, s: int): (c: Tensor)
    ensures c.rows == a.rows && c.cols == a.cols && |c.data| == |a.data|
  {
    a.(data := seq(|a.data|, _ => s))
  }

  /** The scalar form is the tensor form against a constant tensor of the same shape. */
  lemma {:induction false} ScalarIsConstantTensor(op: Pairwise, a: Tensor, s: int)
    requires WellFormed(a)
    ensures WellFormed(Constant(a, s)) && Paired(op, a, Constant(a, s)) == Ok(PairedScalar(op, a, s))
  {
    var c := Constant(a, s);
    assert Paired(op, a, c).value.data == PairedScalar(op, a, s).data;
  }

  /**
   * maximum is the least upper bound of the two elements and minimum the greatest lower
   * bound, each equal to one of them; squared_diff is non-negative and zero exactly on equal
   * elements. Maximum and minimum also commute in their data.
   */
  lemma {:induction false} PairedMeaning(a: Tensor, b: Tensor)
    requires WellFormed(a) && WellFormed(b) && a.rows == b.rows && a.cols == b.cols
    ensures var hi, lo := Paired(MaxOf, a, b).value, Paired(MinOf, a, b).value;
            forall k :: 0 <= k < |a.data| ==>
              a.data[k] <= hi.data[k] && b.data[k] <= hi.data[k] && (hi.data[k] == a.data[k] || hi.data[k] == b.data[k]) &&
              lo.data[k] <= a.data[k] && lo.data[k] <= b.data[k] && (lo.data[k] == a.data[k] || lo.data[k] == b.data[k])
    ensures var d := Paired(SquaredDiff, a, b).value;
            forall k :: 0 <= k < |a.data| ==> d.data[k] >= 0 && (d.data[k] == 0 <==> a.data[k] == b.data[k])
    ensures Paired(MaxOf, a, b).value.data == Paired(MaxOf, b, a).value.data
    ensures Paired(MinOf, a, b).value.data == Paired(MinOf, b, a).value.data
  {
    var d := Paired(SquaredDiff, a, b).value;
    forall k | 0 <= k < |a.data|
      ensures d.data[k] >= 0 && (d.data[k] == 0 <==> a.data[k] == b.data[k])
    {
      var x := a.data[k] - b.data[k];
      if x != 0 {
        assert x * x > 0 by {
          if x > 0 { MulLe(1, x, x); } else { MulLe(1, -x, -x); assert (-x) * (-x) == x * x; }
        }
      }
    }
  }

  /** maximum / minimum / squared_diff against a tensor: a fresh zero buffer filled element by element. */
  method PairTensors(op: Pairwise, a: Tensor, b: Tensor) returns (r: Result<Tensor, ArithError>)
    requires WellFormed(a) && WellFormed(b)
    ensures r == Paired(op, a, b)
  {
    if a.cols != b.cols || a.rows != b.rows {
      return Err(ShapesDiffer);
    }
    var vec := new int[a.rows * a.cols](_ => 0);
    for i := 0 to a.rows * a.cols
      invariant forall m :: 0 <= m < i ==> vec[m] == Pair(op, a.data[m], b.data[m])
    {
      vec[i] := Pair(op, a.data[i], b.data[i]);
    }
    r := Ok(a.(data := vec[..]));
    assert vec[..] == Paired(op, a, b).value.data;
  }

  /** The scalar forms: a fresh zero buffer filled element by element. */
  method PairScalar(op: Pairwise, a: Tensor, s: int) returns (u: Tensor)
    requires WellFormed(a)
    ensures u == PairedScalar(op, a, s)
  {
    var vec := new int[a.rows * a.cols](_ => 0);
    for i := 0 to a.rows * a.cols
      invariant forall m :: 0 <= m < i ==> vec[m] == Pair(op, a.data[m], s)
    {
      vec[i] := Pair(op, a.data[i], s);
    }
    u := a.(data := vec[..]);
    assert vec[..] == PairedScalar(op, a, s).data;
  }
}
