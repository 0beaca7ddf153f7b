/**
 * reduction.cpp over int: all, any, max, min, sum and prod share one loop shape (a running
 * accumulator per slice, `break` for all/any) and one result-shape rule; arg_max and arg_min
 * scan each slice for an index.
 */
module Reduction {
  import opened Wrappers
  import opened RowMajor
  import opened Core
  import opened Folds

  /** count elements of vec, the k-th at start + k * stride, all lie inside vec. */
  predicate Spans(len: nat, start: nat, stride: nat, count: nat) {
    count == 0 || start + (count - 1) * stride < len
  }

  lemma StrideBound(len: nat, start: nat, stride: nat, count: nat, k: nat)
    requires Spans(len, start, stride, count) && k < count
    ensures start + k * stride < len
  {
    MulLe(k, count - 1, stride);
  }

  /** The slice a kernel loop walks: vec[start], vec[start + stride], ... (count elements). */
  function Strided(vec: seq<int>, start: nat, stride: nat, count: nat): (s: seq<int>)
    requires Spans(|vec|, start, stride, count)
    ensures |s| == count
  {
    seq(count, k requires 0 <= k < count => StrideBound(|vec|, start, stride, count, k); vec[start + k * stride])
  }

  /** The whole buffer is the slice of axis -1. */
  lemma WholeIsStrided(vec: seq<int>)
    ensures Spans(|vec|, 0, 1, |vec|) && Strided(vec, 0, 1, |vec|) == vec
  {
  }

  /** Column j is the slice vec[j], vec[j + cols], ... of axis 0. */
  lemma ColumnIsStrided(t: Tensor, j: nat)
    requires WellFormed(t) && j < t.cols
    ensures Spans(|t.data|, j, t.cols, t.rows) && Strided(t.data, j, t.cols, t.rows) == Column(t, j)
  {
    if t.rows > 0 {
      FlatBound(t.rows - 1, j, t.rows, t.cols);
    }
  }

  /** Row i is the slice vec[i * cols], ..., vec[i * cols + cols - 1] of axis 1. */
  lemma RowIsStrided(t: Tensor, i: nat)
    requires WellFormed(t) && i < t.rows
    ensures Spans(|t.data|, i * t.cols, 1, t.cols) && Strided(t.data, i * t.cols, 1, t.cols) == Row(t, i)
  {
    if t.cols > 0 {
      FlatBound(i, t.cols - 1, t.rows, t.cols);
    }
  }

  /** The accumulator loop over one slice; all/any leave it at the first settling element. */
  method FoldSlice(agg: Agg, vec: seq<int>, start: nat, stride: nat, count: nat) returns (acc: int)
    requires Spans(|vec|, start, stride, count)
    ensures acc == Fold(agg, Strided(vec, start, stride, count))
  {
    ghost var s := Strided(vec, start, stride, count);
    acc := Seed(agg);
    for k := 0 to count
      invariant acc == FoldFrom(agg, Seed(agg), s[..k])
    {
      StrideBound(|vec|, start, stride, count, k);
      var x := vec[start + k * stride];
      assert s[..k + 1] == s[..k] + [x];
      FoldFromSnoc(agg, Seed(agg), s[..k], x);
      acc := Step(agg, acc, x);
      if Settled(agg, acc) {
        SettledStays(agg, Seed(agg), s[..k + 1], s[k + 1..]);
        assert s[..k + 1] + s[k + 1..] == s;
        return;
      }
    }
    assert s[..count] == s;
  }

  /** How many slices axis -1, 0 and 1 cut a tensor into: one, one per column, one per row. */
  function SliceCount(t: Tensor, axis: int): nat
    requires -1 <= axis <= 1
  {
    if axis == -1 then 1 else if axis == 0 then t.cols else t.rows
  }

  /** Slice q of an axis: the whole buffer (-1), column q (0) or row q (1). */
  function Slice(t: Tensor, axis: int, q: nat): (s: seq<int>)
    requires WellFormed(t) && -1 <= axis <= 1 && q < SliceCount(t, axis)
    ensures axis == 0 ==> |s| == t.rows && forall i :: 0 <= i < t.rows ==> s[i] == At(t, i, q)
    ensures axis == 1 ==> |s| == t.cols && forall j :: 0 <= j < t.cols ==> s[j] == At(t, q, j)
  {
    if axis == -1 then t.data else if axis == 0 then Column(t, q) else Row(t, q)
  }

  /**
   * The shape rule every accumulator reduction shares: axis -1 gives 1 x 1, axis 0 gives
   * 1 x cols, axis 1 gives rows x 1, any other axis leaves rows x cols; is1d is
   * !keepdims && axis < 0.
   */
  function ReducedShape(t: Tensor, axis: int, keepdims: bool): Shape {
    Shape(if axis == -1 || axis == 0 then 1 else t.rows,
          if axis == -1 || axis == 1 then 1 else t.cols,
          !keepdims && axis < 0)
  }

  /**
   * What `all`, `any`, `max`, `min`, `sum` and `prod` return: one folded value per slice. An
   * axis other than -1, 0, 1 reduces nothing: the result keeps the shape but its buffer is empty.
   */
  function Reduced(agg: Agg, t: Tensor, axis: int, keepdims: bool): (r: Tensor)
    requires WellFormed(t)
    ensures ShapeOf(r) == ReducedShape(t, axis, keepdims)
    ensures -1 <= axis <= 1 ==> |r.data| == SliceCount(t, axis)
  {
    var shape := ReducedShape(t, axis, keepdims);
    if -1 <= axis <= 1 then
      Tensor(shape.rows, shape.cols, shape.is1d,
             seq(SliceCount(t, axis), q requires 0 <= q < SliceCount(t, axis) => Fold(agg, Slice(t, axis, q))))
    else Tensor(shape.rows, shape.cols, shape.is1d, [])
  }

  /** Axes -1, 0 and 1 give a well-formed result; another axis does only for an empty source. */
  lemma ReducedWellFormed(agg: Agg, t: Tensor, axis: int, keepdims: bool)
    requires WellFormed(t)
    ensures WellFormed(Reduced(agg, t, axis, keepdims)) <==> (-1 <= axis <= 1 || t.rows * t.cols == 0)
  {
  }

  /**
   * The reductions with an axis outside -1, 0, 1 refused, as norm refuses one: every result
   * they do return is well-formed.
   */
  function ReducedChecked(agg: Agg, t: Tensor, axis: int, keepdims: bool): (r: Option<Tensor>)
    requires WellFormed(t)
    ensures r.None? <==> axis !in {-1, 0, 1}
    ensures r.Some? ==> WellFormed(r.value) && r.value == Reduced(agg, t, axis, keepdims)
  {
    if -1 <= axis <= 1 then Some(Reduced(agg, t, axis, keepdims)) else None
  }

  /**
   * The kernels themselves: one accumulator loop per slice, each result stored into a
   * buffer of the reduced size.
   */
  method Reduce(agg: Agg, t: Tensor, axis: int, keepdims: bool) returns (r: Tensor)
    requires WellFormed(t)
    ensures r == Reduced(agg, t, axis, keepdims)
  {
    if axis == -1 {
      WholeIsStrided(t.data);
      var v := FoldSlice(agg, t.data, 0, 1, |t.data|);
      r := Tensor(1, 1, !keepdims, [v]);
    } else if axis == 0 {
      var result := new int[t.cols](_ => 0);
      for j := 0 to t.cols
        invariant forall q :: 0 <= q < j ==> result[q] == Fold(agg, Column(t, q))
      {
        ColumnIsStrided(t, j);
        var v := FoldSlice(agg, t.data, j, t.cols, t.rows);
        result[j] := v;
      }
      r := Tensor(1, t.cols, false, result[..]);
      assert r.data == Reduced(agg, t, axis, keepdims).data;
    } else if axis == 1 {
      var result := new int[t.rows](_ => 0);
      for i := 0 to t.rows
        invariant forall q :: 0 <= q < i ==> result[q] == Fold(agg, Row(t, q))
      {
        RowIsStrided(t, i);
        var v := FoldSlice(agg, t.data, i * t.cols, 1, t.cols);
        result[i] := v;
      }
      r := Tensor(t.rows, 1, false, result[..]);
      assert r.data == Reduced(agg, t, axis, keepdims).data;
    } else {
      r := Tensor(t.rows, t.cols, !keepdims && axis < 0, []);
    }
  }

  /** `all` puts 1 in a cell exactly when no element of its slice is 0, else 0. */
  lemma AllCell(t: Tensor, axis: int, keepdims: bool, q: nat)
    requires WellFormed(t) && -1 <= axis <= 1 && q < SliceCount(t, axis)
    ensures var s := Slice(t, axis, q);
            Reduced(All, t, axis, keepdims).data[q] == if forall k :: 0 <= k < |s| ==> s[k] != 0 then 1 else 0
  {
    AllMeaning(Slice(t, axis, q));
  }

  /** `any` puts 1 in a cell exactly when some element of its slice is non-zero, else 0. */
  lemma AnyCell(t: Tensor, axis: int, keepdims: bool, q: nat)
    requires WellFormed(t) && -1 <= axis <= 1 && q < SliceCount(t, axis)
    ensures var s := Slice(t, axis, q);
            Reduced(Any, t, axis, keepdims).data[q] == if exists k :: 0 <= k < |s| && s[k] != 0 then 1 else 0
  {
    AnyMeaning(Slice(t, axis, q));
  }

  /** Every element is a finite float. */
  predicate FiniteData(t: Tensor) {
    forall k :: 0 <= k < |t.data| ==> Finite(t.data[k])
  }

  /** The elements of a slice are elements of the buffer. */
  lemma SliceFinite(t: Tensor, axis: int, q: nat)
    requires WellFormed(t) && FiniteData(t) && -1 <= axis <= 1 && q < SliceCount(t, axis)
    ensures forall k :: 0 <= k < |Slice(t, axis, q)| ==> Finite(Slice(t, axis, q)[k])
  {
    var s := Slice(t, axis, q);
    forall k | 0 <= k < |s|
      ensures Finite(s[k])
    {
      if axis == 0 {
        FlatBound(k, q, t.rows, t.cols);
      } else if axis == 1 {
        FlatBound(q, k, t.rows, t.cols);
      }
    }
  }

  /** On finite data `max` of a non-empty slice is one of its elements and none exceeds it. */
  lemma MaxCell(t: Tensor, axis: int, keepdims: bool, q: nat)
    requires WellFormed(t) && FiniteData(t) && -1 <= axis <= 1 && q < SliceCount(t, axis)
    requires |Slice(t, axis, q)| > 0
    ensures var s, m := Slice(t, axis, q), Reduced(Maximum, t, axis, keepdims).data[q];
            m in s && forall k :: 0 <= k < |s| ==> s[k] <= m
  {
    SliceFinite(t, axis, q);
    MaxMeaning(Slice(t, axis, q));
  }

  /** On finite data `min` of a non-empty slice is one of its elements and none is below it. */
  lemma MinCell(t: Tensor, axis: int, keepdims: bool, q: nat)
    requires WellFormed(t) && FiniteData(t) && -1 <= axis <= 1 && q < SliceCount(t, axis)
    requires |Slice(t, axis, q)| > 0
    ensures var s, m := Slice(t, axis, q), Reduced(Minimum, t, axis, keepdims).data[q];
            m in s && forall k :: 0 <= k < |s| ==> m <= s[k]
  {
    SliceFinite(t, axis, q);
    MinMeaning(Slice(t, axis, q));
  }

  /** `max` of an empty slice is lowest(), `min` of one is infinity. */
  lemma EmptyExtremes(t: Tensor, axis: int, keepdims: bool, q: nat)
    requires WellFormed(t) && -1 <= axis <= 1 && q < SliceCount(t, axis)
    requires |Slice(t, axis, q)| == 0
    ensures Reduced(Maximum, t, axis, keepdims).data[q] == LOWEST
    ensures Reduced(Minimum, t, axis, keepdims).data[q] == INF
  {
    assert Slice(t, axis, q) == [];
  }

  /** `sum` and `prod` put the sum and product of a slice in its cell; empty gives 0 and 1. */
  lemma SumProdCell(t: Tensor, axis: int, keepdims: bool, q: nat)
    requires WellFormed(t) && -1 <= axis <= 1 && q < SliceCount(t, axis)
    ensures Reduced(Sum, t, axis, keepdims).data[q] == SumOf(Slice(t, axis, q))
    ensures Reduced(Prod, t, axis, keepdims).data[q] == ProdOf(Slice(t, axis, q))
  {
    SumMeaning(Slice(t, axis, q));
    ProdMeaning(Slice(t, axis, q));
  }

  /** arg_max compares with `>`, arg_min with `<`. */
  datatype Arg = ArgMax | ArgMin

  predicate Beats(e: Arg, x: int, y: int) {
    match e
    case ArgMax => x > y
    case ArgMin => x < y
  }

  /**
   * `std::max_element` / `std::min_element` as an index: the first position whose element no
   * other beats; 0 for an empty range (the distance to `end`).
   */
  function BestIndex(e: Arg, s: seq<int>): (r: nat)
    ensures |s| == 0 ==> r == 0
    ensures |s| > 0 ==> r < |s|
    decreases |s|
  {
    if |s| <= 1 then 0
    else
      var b := BestIndex(e, s[..|s| - 1]);
      if Beats(e, s[|s| - 1], s[b]) then |s| - 1 else b
  }

  /** The best index holds an element no element beats, and it beats every element before it. */
  lemma {:induction false} BestIndexMeaning(e: Arg, s: seq<int>)
    requires |s| > 0
    ensures forall k :: 0 <= k < |s| ==> !Beats(e, s[k], s[BestIndex(e, s)])
    ensures forall k :: 0 <= k < BestIndex(e, s) ==> Beats(e, s[BestIndex(e, s)], s[k])
    decreases |s|
  {
    if |s| > 1 {
      var init := s[..|s| - 1];
      BestIndexMeaning(e, init);
      assert forall k :: 0 <= k < |init| ==> init[k] == s[k];
    }
  }

  /**
   * The scan arg_max and arg_min run along a column or row: the last index i >= 1 whose
   * element beats its predecessor, or 0 when there is none.
   */
  function LastRise(e: Arg, s: seq<int>): (r: nat)
    ensures |s| == 0 ==> r == 0
    ensures |s| > 0 ==> r < |s|
    decreases |s|
  {
    if |s| <= 1 then 0
    else if Beats(e, s[|s| - 1], s[|s| - 2]) then |s| - 1
    else LastRise(e, s[..|s| - 1])
  }

  /** LastRise is a rise (or 0 when none exists) and no rise comes after it. */
  lemma {:induction false} LastRiseMeaning(e: Arg, s: seq<int>)
    ensures var r := LastRise(e, s);
            (r == 0 || (0 < r < |s| && Beats(e, s[r], s[r - 1]))) &&
            forall i :: r < i < |s| ==> !Beats(e, s[i], s[i - 1])
    decreases |s|
  {
    if |s| > 1 && !Beats(e, s[|s| - 1], s[|s| - 2]) {
      var init := s[..|s| - 1];
      LastRiseMeaning(e, init);
      assert forall k :: 0 <= k < |init| ==> init[k] == s[k];
    }
  }

  /**
   * `arg_max` / `arg_min` as written: a 1-d tensor gives the best index over the buffer (1 x 1)
   * whatever the axis; axis 0 and 1 give each column's or row's LastRise; another axis on a
   * 2-d tensor keeps the shape with an empty buffer. is1d is the source's in every case.
   */
  function ArgReducedAsWritten(e: Arg, t: Tensor, axis: int): (r: Tensor)
    requires WellFormed(t)
    ensures r.is1d == t.is1d
    ensures t.is1d ==> r.rows == 1 && r.cols == 1
    ensures !t.is1d ==> r.rows == (if axis == 0 then 1 else t.rows) && r.cols == (if axis == 1 then 1 else t.cols)
  {
    if t.is1d then Tensor(1, 1, true, [BestIndex(e, t.data)])
    else if axis == 0 || axis == 1 then
      Tensor(if axis == 0 then 1 else t.rows, if axis == 1 then 1 else t.cols, false,
             seq(SliceCount(t, axis), q requires 0 <= q < SliceCount(t, axis) => LastRise(e, Slice(t, axis, q))))
    else Tensor(t.rows, t.cols, false, [])
  }

  /** A 2-d cell of the as-written arg_max is the last rise of its slice, or 0 without one. */
  lemma ArgCellAsWritten(e: Arg, t: Tensor, axis: int, q: nat)
    requires WellFormed(t) && !t.is1d && 0 <= axis <= 1 && q < SliceCount(t, axis)
    ensures var s, r := Slice(t, axis, q), ArgReducedAsWritten(e, t, axis).data[q];
            (r == 0 || (0 < r < |s| && Beats(e, s[r], s[r - 1]))) &&
            forall i :: r < i < |s| ==> !Beats(e, s[i], s[i - 1])
  {
    LastRiseMeaning(e, Slice(t, axis, q));
  }

  /**
   * The column [0, 5, 3, 4] has its maximum at index 1, but the as-written scan reports 3,
   * the position of the last rise (3 -> 4).
   */
  lemma ArgMaxRiseIsNotMax()
    ensures var t := Tensor(4, 1, false, [0, 5, 3, 4]);
            ArgReducedAsWritten(ArgMax, t, 0).data == [3] &&
            At(t, 3, 0) < At(t, 1, 0)
  {
    var t := Tensor(4, 1, false, [0, 5, 3, 4]);
    var c := Slice(t, 0, 0);
    assert c == [0, 5, 3, 4];
    assert LastRise(ArgMax, c) == 3;
  }

  /**
   * arg_max / arg_min with each column or row scanned the way the 1-d case scans the buffer:
   * every cell holds the index of the first best element of its slice.
   */
  function ArgReduced(e: Arg, t: Tensor, axis: int): (r: Tensor)
    requires WellFormed(t)
    ensures r.is1d == t.is1d
    ensures t.is1d ==> r.rows == 1 && r.cols == 1
    ensures !t.is1d ==> r.rows == (if axis == 0 then 1 else t.rows) && r.cols == (if axis == 1 then 1 else t.cols)
  {
    if t.is1d then Tensor(1, 1, true, [BestIndex(e, t.data)])
    else if axis == 0 || axis == 1 then
      Tensor(if axis == 0 then 1 else t.rows, if axis == 1 then 1 else t.cols, false,
             seq(SliceCount(t, axis), q requires 0 <= q < SliceCount(t, axis) => BestIndex(e, Slice(t, axis, q))))
    else Tensor(t.rows, t.cols, false, [])
  }

  /**
   * A 2-d cell of the corrected arg_max indexes an element of its slice that no element beats,
   * and that beats every element before it.
   */
  lemma ArgCell(e: Arg, t: Tensor, axis: int, q: nat)
    requires WellFormed(t) && !t.is1d && 0 <= axis <= 1 && q < SliceCount(t, axis)
    requires |Slice(t, axis, q)| > 0
    ensures var s, r := Slice(t, axis, q), ArgReduced(e, t, axis).data[q];
            r < |s| &&
            (forall k :: 0 <= k < |s| ==> !Beats(e, s[k], s[r])) &&
            (forall k :: 0 <= k < r ==> Beats(e, s[r], s[k]))
  {
    BestIndexMeaning(e, Slice(t, axis, q));
  }

  /** The max_element / min_element loop over one slice. */
  method BestScan(e: Arg, vec: seq<int>, start: nat, stride: nat, count: nat) returns (idx: nat)
    requires Spans(|vec|, start, stride, count)
    ensures idx == BestIndex(e, Strided(vec, start, stride, count))
  {
    ghost var s := Strided(vec, start, stride, count);
    idx := 0;
    if count == 0 {
      return;
    }
    var best := vec[start];
    for k := 1 to count
      invariant idx == BestIndex(e, s[..k]) && idx < k && best == s[idx]
    {
      StrideBound(|vec|, start, stride, count, k);
      var x := vec[start + k * stride];
      assert s[..k + 1][..k] == s[..k];
      if Beats(e, x, best) {
        idx, best := k, x;
      }
    }
    assert s[..count] == s;
  }

  /** The as-written loop over one slice: remember i whenever element i beats element i - 1. */
  method RiseScan(e: Arg, vec: seq<int>, start: nat, stride: nat, count: nat) returns (idx: nat)
    requires Spans(|vec|, start, stride, count)
    ensures idx == LastRise(e, Strided(vec, start, stride, count))
  {
    ghost var s := Strided(vec, start, stride, count);
    idx := 0;
    if count == 0 {
      return;
    }
    for k := 1 to count
      invariant idx == LastRise(e, s[..k])
    {
      StrideBound(|vec|, start, stride, count, k);
      StrideBound(|vec|, start, stride, count, k - 1);
      assert s[..k + 1][..k] == s[..k];
      if Beats(e, vec[start + k * stride], vec[start + (k - 1) * stride]) {
        idx := k;
      } else {
        RiseStays(e, s[..k], s[..k + 1]);
      }
    }
    assert s[..count] == s;
  }

  /** A slice extended by an element that does not beat its predecessor keeps its LastRise. */
  lemma RiseStays(e: Arg, init: seq<int>, s: seq<int>)
    requires |s| >= 2 && init == s[..|s| - 1] && !Beats(e, s[|s| - 1], s[|s| - 2])
    ensures LastRise(e, s) == LastRise(e, init)
  {
  }

  /** Stores one index per column (axis 0) or row (axis 1) into a buffer, as the 2-d branches do. */
  method ArgSlices(e: Arg, t: Tensor, axis: int, asWritten: bool) returns (v: seq<int>)
    requires WellFormed(t) && 0 <= axis <= 1
    ensures |v| == SliceCount(t, axis)
    ensures forall q :: 0 <= q < |v| ==>
              v[q] == if asWritten then LastRise(e, Slice(t, axis, q)) else BestIndex(e, Slice(t, axis, q))
  {
    var n := SliceCount(t, axis);
    var result := new int[n](_ => 0);
    for q := 0 to n
      invariant forall p :: 0 <= p < q ==>
                  result[p] == if asWritten then LastRise(e, Slice(t, axis, p)) else BestIndex(e, Slice(t, axis, p))
    {
      var start, stride, count;
      if axis == 0 {
        ColumnIsStrided(t, q);
        start, stride, count := q, t.cols, t.rows;
      } else {
        RowIsStrided(t, q);
        start, stride, count := q * t.cols, 1, t.cols;
      }
      var idx;
      if asWritten {
        idx := RiseScan(e, t.data, start, stride, count);
      } else {
        idx := BestScan(e, t.data, start, stride, count);
      }
      result[q] := idx;
    }
    v := result[..];
  }

  /** The arg_max / arg_min kernels as written. */
  method ArgReduceAsWritten(e: Arg, t: Tensor, axis: int) returns (r: Tensor)
    requires WellFormed(t)
    ensures r == ArgReducedAsWritten(e, t, axis)
  {
    if t.is1d {
      WholeIsStrided(t.data);
      var idx := BestScan(e, t.data, 0, 1, |t.data|);
      r := Tensor(1, 1, true, [idx]);
    } else if axis == 0 || axis == 1 {
      var v := ArgSlices(e, t, axis, true);
      r := Tensor(if axis == 0 then 1 else t.rows, if axis == 1 then 1 else t.cols, false, v);
      assert r.data == ArgReducedAsWritten(e, t, axis).data;
    } else {
      r := Tensor(t.rows, t.cols, false, []);
    }
  }

  /** The arg_max / arg_min kernels with each slice scanned for its first best element. */
  method ArgReduce(e: Arg, t: Tensor, axis: int) returns (r: Tensor)
    requires WellFormed(t)
    ensures r == ArgReduced(e, t, axis)
  {
    if t.is1d {
      WholeIsStrided(t.data);
      var idx := BestScan(e, t.data, 0, 1, |t.data|);
      r := Tensor(1, 1, true, [idx]);
    } else if axis == 0 || axis == 1 {
      var v := ArgSlices(e, t, axis, false);
      r := Tensor(if axis == 0 then 1 else t.rows, if axis == 1 then 1 else t.cols, false, v);
      assert r.data == ArgReduced(e, t, axis).data;
    } else {
      r := Tensor(t.rows, t.cols, false, []);
    }
  }

  /** On 1-d data both forms return the first best index of the whole buffer. */
  lemma ArgFlat(e: Arg, t: Tensor, axis: int)
    requires WellFormed(t) && t.is1d && |t.data| > 0
    ensures var r := ArgReduced(e, t, axis);
            r == ArgReducedAsWritten(e, t, axis) && r.rows == 1 && r.cols == 1 &&
            r.data[0] < |t.data| &&
            (forall k :: 0 <= k < |t.data| ==> !Beats(e, t.data[k], t.data[r.data[0]])) &&
            (forall k :: 0 <= k < r.data[0] ==> Beats(e, t.data[r.data[0]], t.data[k]))
  {
    BestIndexMeaning(e, t.data);
  }
}
