/**
 * slicejoin.cpp: reverse along an axis (in place on a deep copy, with std::reverse and
 * std::swap_ranges) and stack (copying each input's buffer after the previous one).
 */
module SliceJoin {
  import opened RowMajor
  import opened Core

  /** s with the slice [lo, hi) mirrored in place: what `std::reverse` leaves. */
  function Mirrored(s: seq<int>, lo: nat, hi: nat): (m: seq<int>)
    requires lo <= hi <= |s|
    ensures |m| == |s|
  {
    seq(|s|, k requires 0 <= k < |s| => if lo <= k < hi then s[lo + hi - 1 - k] else s[k])
  }

  /** s with the slices [p, p + len) and [q, q + len) exchanged: what `std::swap_ranges` leaves. */
  function Exchanged(s: seq<int>, p: nat, q: nat, len: nat): (e: seq<int>)
    requires p + len <= q && q + len <= |s|
    ensures |e| == |s|
  {
    seq(|s|, k requires 0 <= k < |s| =>
      if p <= k < p + len then s[k - p + q] else if q <= k < q + len then s[k - q + p] else s[k])
  }

  /** `std::reverse(a + lo, a + hi)`: swap from both ends towards the middle. */
  method ReverseRange(a: array<int>, lo: nat, hi: nat)
    requires lo <= hi <= a.Length
    modifies a
    ensures a[..] == Mirrored(old(a[..]), lo, hi)
  {
    ghost var s := a[..];
    var i, j := lo, hi;
    while i + 1 < j
      invariant lo <= i <= j <= hi && i + j == lo + hi
      invariant forall k :: lo <= k < i ==> a[k] == s[lo + hi - 1 - k]
      invariant forall k :: j <= k < hi ==> a[k] == s[lo + hi - 1 - k]
      invariant forall k :: 0 <= k < a.Length && !(lo <= k < i || j <= k < hi) ==> a[k] == s[k]
    {
      a[i], a[j - 1] := a[j - 1], a[i];
      i, j := i + 1, j - 1;
    }
    assert a[..] == Mirrored(s, lo, hi) by {
      forall k | 0 <= k < a.Length
        ensures a[k] == Mirrored(s, lo, hi)[k]
      {
        if i <= k < j {
          assert k == i && lo + hi - 1 - k == k;
        }
      }
    }
  }
  /** `std::swap_ranges(a + p, a + p + len, a + q)` on two disjoint ranges. */
  method SwapRanges(a: array<int>, p: nat, len: nat, q: nat)
    requires p + len <= q && q + len <= a.Length
    modifies a
    ensures a[..] == Exchanged(old(a[..]), p, q, len)
  {
    ghost var s := a[..];
    for m := 0 to len
      invariant forall k :: p <= k < p + m ==> a[k] == s[k - p + q]
      invariant forall k :: q <= k < q + m ==> a[k] == s[k - q + p]
      invariant forall k :: 0 <= k < a.Length && !(p <= k < p + m || q <= k < q + m) ==> a[k] == s[k]
    {
      a[p + m], a[q + m] := a[q + m], a[p + m];
    }
    assert a[..] == Exchanged(s, p, q, len) by {
      forall k | 0 <= k < a.Length
        ensures a[k] == Exchanged(s, p, q, len)[k]
      {
      }
    }
  }

  /** Cell (i, c) of the row-flipped tensor: source row rows - 1 - i. */
  function Flip(t: Tensor, i: nat, c: nat): int
    requires WellFormed(t)
  {
    if i < t.rows then Get(t, t.rows - 1 - i, c) else 0
  }

  /** Cell (i, c) of the column-mirrored tensor: source column cols - 1 - c. */
  function Mirror(t: Tensor, i: nat, c: nat): int
    requires WellFormed(t)
  {
    if c < t.cols then Get(t, i, t.cols - 1 - c) else 0
  }

  /**
   * What `Tensor::reverse(axis)` returns: the whole buffer reversed for -1, the row order
   * reversed for 0, each row reversed for 1, and an unchanged copy for any other axis.
   */
  function Reversed(t: Tensor, axis: int): (u: Tensor)
    requires WellFormed(t)
    ensures WellFormed(u) && u.rows == t.rows && u.cols == t.cols && u.is1d == t.is1d
  {
    if axis == -1 then t.(data := Mirrored(t.data, 0, |t.data|))
    else if axis == 0 then Build(t.rows, t.cols, t.is1d, (i: nat, c: nat) => Flip(t, i, c))
    else if axis == 1 then Build(t.rows, t.cols, t.is1d, (i: nat, c: nat) => Mirror(t, i, c))
    else t
  }

  /** The index maps of reverse, cell by cell. */
  lemma {:induction false} ReversedAt(t: Tensor, axis: int)
    requires WellFormed(t)
    ensures var u := Reversed(t, axis);
            axis == -1 ==> forall k :: 0 <= k < |t.data| ==> u.data[k] == t.data[|t.data| - 1 - k]
    ensures var u := Reversed(t, axis);
            axis == 0 ==> forall i, j :: 0 <= i < t.rows && 0 <= j < t.cols ==> At(u, i, j) == At(t, t.rows - 1 - i, j)
    ensures var u := Reversed(t, axis);
            axis == 1 ==> forall i, j :: 0 <= i < t.rows && 0 <= j < t.cols ==> At(u, i, j) == At(t, i, t.cols - 1 - j)
    ensures axis !in {-1, 0, 1} ==> Reversed(t, axis) == t
  {
    if axis == 0 {
      BuildAt(t.rows, t.cols, t.is1d, (i: nat, c: nat) => Flip(t, i, c));
    } else if axis == 1 {
      BuildAt(t.rows, t.cols, t.is1d, (i: nat, c: nat) => Mirror(t, i, c));
    }
  }

  /** Reversing twice along the same axis gives back the source. */
  lemma {:induction false} ReverseTwice(t: Tensor, axis: int)
    requires WellFormed(t)
    ensures Reversed(Reversed(t, axis), axis) == t
  {
    var u := Reversed(t, axis);
    var w := Reversed(u, axis);
    ReversedAt(t, axis);
    ReversedAt(u, axis);
    if axis == -1 {
      assert w.data == t.data;
    } else if axis == 0 || axis == 1 {
      SameAt(w, t);
    }
  }

  /** The buffer after the row-swap loop of reverse(0) has swapped rows 0 .. r - 1 with their mirrors. */
  function SwapStage(t: Tensor, r: nat): seq<int>
    requires WellFormed(t)
  {
    Build(t.rows, t.cols, t.is1d,
          (i: nat, c: nat) => if i < r || (i < t.rows && t.rows - r <= i) then Flip(t, i, c) else Get(t, i, c)).data
  }

  lemma {:induction false} SwapStageStart(t: Tensor)
    requires WellFormed(t)
    ensures SwapStage(t, 0) == t.data
  {
    BuildSame(t.rows, t.cols, t.is1d,
              (i: nat, c: nat) => if i < 0 || (i < t.rows && t.rows - 0 <= i) then Flip(t, i, c) else Get(t, i, c),
              (i: nat, c: nat) => Get(t, i, c));
    BuildGet(t);
  }

  lemma {:induction false} SwapStageEnd(t: Tensor)
    requires WellFormed(t)
    ensures SwapStage(t, t.rows / 2) == Reversed(t, 0).data
  {
    var r := t.rows / 2;
    BuildSame(t.rows, t.cols, t.is1d,
              (i: nat, c: nat) => if i < r || (i < t.rows && t.rows - r <= i) then Flip(t, i, c) else Get(t, i, c),
              (i: nat, c: nat) => Flip(t, i, c));
  }

  /** Cell (i, c) of a swap stage: flipped in the rows already exchanged, the source elsewhere. */
  lemma SwapCell(t: Tensor, r: nat, i: nat, c: nat)
    requires WellFormed(t) && i < t.rows && c < t.cols
    ensures i * t.cols + c < |t.data|
    ensures SwapStage(t, r)[i * t.cols + c] == if i < r || t.rows - r <= i then Flip(t, i, c) else Get(t, i, c)
  {
    FlatBound(i, c, t.rows, t.cols);
    Decode(i, c, t.cols);
  }

  /** One swap_ranges call of reverse(0), at one flat index. */
  lemma {:induction false} SwapStepAt(t: Tensor, r: nat, k: nat)
    requires WellFormed(t) && r < t.rows / 2 && k < |t.data|
    ensures r * t.cols + t.cols <= (t.rows - 1 - r) * t.cols && (t.rows - 1 - r) * t.cols + t.cols <= |t.data|
    ensures SwapStage(t, r + 1)[k] == Exchanged(SwapStage(t, r), r * t.cols, (t.rows - 1 - r) * t.cols, t.cols)[k]
  {
    var q := t.rows - 1 - r;
    MulLt(r, q, t.cols);
    MulLt(q, t.rows, t.cols);
    Split(k, t.rows, t.cols);
    var i, c := k / t.cols, k % t.cols;
    RowRange(k, r, t.cols);
    RowRange(k, q, t.cols);
    SwapCell(t, r + 1, i, c);
    if i == r {
      SwapCell(t, r, q, c);
      assert k - r * t.cols + q * t.cols == q * t.cols + c;
    } else if i == q {
      SwapCell(t, r, r, c);
      assert k - q * t.cols + r * t.cols == r * t.cols + c;
    } else {
      SwapCell(t, r, i, c);
    }
  }

  lemma {:induction false} SwapStep(t: Tensor, r: nat)
    requires WellFormed(t) && r < t.rows / 2
    ensures r * t.cols + t.cols <= (t.rows - 1 - r) * t.cols && (t.rows - 1 - r) * t.cols + t.cols <= |t.data|
    ensures SwapStage(t, r + 1) == Exchanged(SwapStage(t, r), r * t.cols, (t.rows - 1 - r) * t.cols, t.cols)
  {
    MulLt(r, t.rows - 1 - r, t.cols);
    MulLt(t.rows - 1 - r, t.rows, t.cols);
    var next := SwapStage(t, r + 1);
    var swapped := Exchanged(SwapStage(t, r), r * t.cols, (t.rows - 1 - r) * t.cols, t.cols);
    forall k | 0 <= k < |t.data|
      ensures next[k] == swapped[k]
    {
      SwapStepAt(t, r, k);
    }
  }

  /** The buffer after the per-row loop of reverse(1) has mirrored rows 0 .. r - 1. */
  function MirrorStage(t: Tensor, r: nat): seq<int>
    requires WellFormed(t)
  {
    Build(t.rows, t.cols, t.is1d, (i: nat, c: nat) => if i < r then Mirror(t, i, c) else Get(t, i, c)).data
  }

  lemma {:induction false} MirrorStageStart(t: Tensor)
    requires WellFormed(t)
    ensures MirrorStage(t, 0) == t.data
  {
    BuildSame(t.rows, t.cols, t.is1d, (i: nat, c: nat) => if i < 0 then Mirror(t, i, c) else Get(t, i, c),
              (i: nat, c: nat) => Get(t, i, c));
    BuildGet(t);
  }

  lemma {:induction false} MirrorStageEnd(t: Tensor)
    requires WellFormed(t)
    ensures MirrorStage(t, t.rows) == Reversed(t, 1).data
  {
    BuildSame(t.rows, t.cols, t.is1d, (i: nat, c: nat) => if i < t.rows then Mirror(t, i, c) else Get(t, i, c),
              (i: nat, c: nat) => Mirror(t, i, c));
  }

  /** One std::reverse call of reverse(1), at one flat index. */
  lemma MirrorStepAt(t: Tensor, r: nat, k: nat)
    requires WellFormed(t) && r < t.rows && k < |t.data|
    ensures r * t.cols + t.cols <= |t.data|
    ensures MirrorStage(t, r + 1)[k] == Mirrored(MirrorStage(t, r), r * t.cols, r * t.cols + t.cols)[k]
  {
    MulLt(r, t.rows, t.cols);
    Split(k, t.rows, t.cols);
    var i, c := k / t.cols, k % t.cols;
    RowRange(k, r, t.cols);
    if i == r {
      var s := MirrorStage(t, r);
      FlatBound(r, t.cols - 1 - c, t.rows, t.cols);
      Decode(r, t.cols - 1 - c, t.cols);
      assert r * t.cols + (r * t.cols + t.cols) - 1 - k == r * t.cols + (t.cols - 1 - c);
      assert s[r * t.cols + (t.cols - 1 - c)] == Get(t, r, t.cols - 1 - c);
    }
  }

  lemma {:induction false} MirrorStep(t: Tensor, r: nat)
    requires WellFormed(t) && r < t.rows
    ensures r * t.cols + t.cols <= |t.data|
    ensures MirrorStage(t, r + 1) == Mirrored(MirrorStage(t, r), r * t.cols, r * t.cols + t.cols)
  {
    MulLt(r, t.rows, t.cols);
    var next := MirrorStage(t, r + 1);
    var mirrored := Mirrored(MirrorStage(t, r), r * t.cols, r * t.cols + t.cols);
    forall k | 0 <= k < |t.data|
      ensures next[k] == mirrored[k]
    {
      MirrorStepAt(t, r, k);
    }
  }

  /** `Tensor::reverse`: the work is done on a deep copy of the source buffer. */
  method Reverse(t: Tensor, axis: int) returns (u: Tensor)
    requires WellFormed(t)
    ensures u == Reversed(t, axis)
  {
    var vec := new int[|t.data|](k requires 0 <= k < |t.data| => t.data[k]);
    assert vec[..] == t.data;
    if axis == -1 {
      ReverseRange(vec, 0, vec.Length);
    } else if axis == 0 {
      SwapStageStart(t);
      for r := 0 to t.rows / 2
        invariant vec[..] == SwapStage(t, r)
      {
        SwapStep(t, r);
        var startRow1 := r * t.cols;
        var startRow2 := (t.rows - 1 - r) * t.cols;
        SwapRanges(vec, startRow1, t.cols, startRow2);
      }
      SwapStageEnd(t);
    } else if axis == 1 {
      MirrorStageStart(t);
      for i := 0 to t.rows
        invariant vec[..] == MirrorStage(t, i)
      {
        MirrorStep(t, i);
        ReverseRange(vec, i * t.cols, i * t.cols + t.cols);
      }
      MirrorStageEnd(t);
    }
    u := Tensor(t.rows, t.cols, t.is1d, vec[..]);
  }

  /** The inputs' buffers, one after another. */
  function Concat(ts: seq<Tensor>): seq<int>
    decreases |ts|
  {
    if |ts| == 0 then [] else Concat(ts[..|ts| - 1]) + ts[|ts| - 1].data
  }

  /** A prefix of the inputs contributes a prefix of the concatenation. */
  lemma {:induction false} ConcatPrefix(ts: seq<Tensor>, i: nat)
    requires i <= |ts|
    ensures |Concat(ts[..i])| <= |Concat(ts)|
    decreases |ts| - i
  {
    if i < |ts| {
      ConcatPrefix(ts, i + 1);
      assert ts[..i + 1][..i] == ts[..i];
    } else {
      assert ts[..i] == ts;
    }
  }

  /** The next input's buffer extends the concatenation so far, still within the whole. */
  lemma {:induction false} ConcatStep(ts: seq<Tensor>, i: nat)
    requires i < |ts|
    ensures Concat(ts[..i + 1]) == Concat(ts[..i]) + ts[i].data
    ensures |Concat(ts[..i + 1])| <= |Concat(ts)|
  {
    assert ts[..i + 1][..i] == ts[..i];
    ConcatPrefix(ts, i + 1);
  }

  /** The output buffer of tensor_stack is large enough for every input's elements. */
  predicate Fits(ts: seq<Tensor>) {
    |ts| == 0 || |Concat(ts)| <= ts[0].rows * |ts| * ts[0].cols
  }

  /**
   * What `tensor_stack` returns: shape (first.rows * n) x first.cols, not 1-d, the
   * concatenated buffers followed by zeros up to the full size.
   */
  function Stacked(ts: seq<Tensor>): (u: Tensor)
    requires Fits(ts)
    ensures WellFormed(u) && !u.is1d
  {
    if |ts| == 0 then Tensor(0, 0, false, [])
    else
      var rows := ts[0].rows * |ts|;
      var cols := ts[0].cols;
      Tensor(rows, cols, false, Concat(ts) + seq(rows * cols - |Concat(ts)|, _ => 0))
  }

  /** Inputs of one size concatenate to n * size elements. */
  lemma {:induction false} ConcatLength(ts: seq<Tensor>, size: nat)
    requires forall b :: 0 <= b < |ts| ==> |ts[b].data| == size
    ensures |Concat(ts)| == |ts| * size
    decreases |ts|
  {
    if |ts| > 0 {
      ConcatLength(ts[..|ts| - 1], size);
    }
  }

  /** Inputs of one size: input b occupies elements b * size .. (b + 1) * size of the concatenation. */
  lemma {:induction false} ConcatBlock(ts: seq<Tensor>, size: nat, b: nat)
    requires forall b :: 0 <= b < |ts| ==> |ts[b].data| == size
    requires b < |ts|
    ensures (b + 1) * size <= |Concat(ts)|
    ensures Concat(ts)[b * size .. (b + 1) * size] == ts[b].data
    decreases |ts|
  {
    var init := ts[..|ts| - 1];
    var c, last := Concat(init), ts[|ts| - 1].data;
    assert Concat(ts) == c + last;
    var lo, hi := b * size, (b + 1) * size;
    if b < |ts| - 1 {
      ConcatBlock(init, size, b);
      assert init[b] == ts[b];
      assert (c + last)[lo..hi] == c[lo..hi];
    } else {
      ConcatLength(init, size);
      assert lo == |c|;
      MulSucc(b, size);
      assert (c + last)[lo..hi] == last;
    }
  }

  /** Stacking inputs of one shape leaves no zero tail: the data is exactly their concatenation. */
  lemma {:induction false} StackSameShape(ts: seq<Tensor>)
    requires |ts| > 0
    requires forall b :: 0 <= b < |ts| ==> WellFormed(ts[b]) && ts[b].rows == ts[0].rows && ts[b].cols == ts[0].cols
    ensures Fits(ts)
    ensures Stacked(ts) == Tensor(ts[0].rows * |ts|, ts[0].cols, false, Concat(ts))
  {
    var n, r0, c0 := |ts|, ts[0].rows, ts[0].cols;
    ConcatLength(ts, r0 * c0);
    MulRotate(r0, n, c0);
    var s := Concat(ts);
    assert s + seq(r0 * n * c0 - |s|, _ => 0) == s;
  }

  /** Stacking inputs of one shape puts input b, unchanged, in row block b. */
  lemma {:induction false} StackBlocks(ts: seq<Tensor>, b: nat)
    requires |ts| > 0
    requires forall b :: 0 <= b < |ts| ==> WellFormed(ts[b]) && ts[b].rows == ts[0].rows && ts[b].cols == ts[0].cols
    requires b < |ts|
    ensures Fits(ts)
    ensures var size := |ts[0].data|;
            (b + 1) * size <= |Stacked(ts).data| && Stacked(ts).data[b * size .. (b + 1) * size] == ts[b].data
  {
    StackSameShape(ts);
    ConcatBlock(ts, |ts[0].data|, b);
  }

  /** `std::copy(v.begin(), v.end(), a + at)`: returns the position after the last element written. */
  method CopyInto(a: array<int>, at: nat, v: seq<int>) returns (next: nat)
    requires at + |v| <= a.Length
    modifies a
    ensures next == at + |v|
    ensures forall k :: 0 <= k < a.Length ==> a[k] == if at <= k < next then v[k - at] else old(a[k])
  {
    next := at;
    for m := 0 to |v|
      invariant next == at + m
      invariant forall k :: 0 <= k < a.Length ==> a[k] == if at <= k < next then v[k - at] else old(a[k])
    {
      a[next] := v[m];
      next := next + 1;
    }
  }

  /** A stack buffer part-way through tensor_stack: the elements copied so far, then zeros. */
  predicate Staged(s: seq<int>, c: seq<int>) {
    |c| <= |s| && forall k :: 0 <= k < |s| ==> s[k] == if k < |c| then c[k] else 0
  }

  /** Copying one more input's buffer after the elements already copied extends the staged prefix. */
  lemma {:induction false} StagedStep(before: seq<int>, after: seq<int>, c: seq<int>, v: seq<int>)
    requires Staged(before, c) && |c| + |v| <= |before| && |after| == |before|
    requires forall k :: 0 <= k < |after| ==> after[k] == if |c| <= k < |c| + |v| then v[k - |c|] else before[k]
    ensures Staged(after, c + v)
  {
    forall k | 0 <= k < |after|
      ensures after[k] == if k < |c + v| then (c + v)[k] else 0
    {
      if k < |c| {
        assert (c + v)[k] == c[k];
      } else if k < |c| + |v| {
        assert (c + v)[k] == v[k - |c|];
      }
    }
  }

  /** `tensor_stack`: size the output from the first input, then copy each input in turn. */
  method Stack(ts: seq<Tensor>) returns (u: Tensor)
    requires Fits(ts)
    ensures u == Stacked(ts)
  {
    var init := true;
    var rows, cols := 0, 0;
    var stack := new int[0];
    var iter := 0;
    ghost var total := if |ts| == 0 then 0 else ts[0].rows * |ts| * ts[0].cols;
    for i := 0 to |ts|
      invariant fresh(stack)
      invariant init <==> i == 0
      invariant i == 0 ==> rows == 0 && cols == 0 && stack.Length == 0
      invariant i > 0 ==> rows == ts[0].rows * |ts| && cols == ts[0].cols && stack.Length == total
      invariant iter == |Concat(ts[..i])|
      invariant Staged(stack[..], Concat(ts[..i]))
    {
      if init {
        rows := ts[i].rows * |ts|;
        cols := ts[i].cols;
        stack := new int[rows * cols](_ => 0);
        iter := 0;
        init := false;
      }
      var vec := ts[i].data;
      ConcatStep(ts, i);
      ghost var before := stack[..];
      iter := CopyInto(stack, iter, vec);
      StagedStep(before, stack[..], Concat(ts[..i]), vec);
    }
    assert ts[..|ts|] == ts;
    StagedStacked(ts, stack[..]);
    u := Tensor(rows, cols, false, stack[..]);
  }

  /** A buffer of the full output size holding every input's elements, then zeros, is the stacked data. */
  lemma {:induction false} StagedStacked(ts: seq<Tensor>, s: seq<int>)
    requires Fits(ts) && Staged(s, Concat(ts))
    requires |s| == if |ts| == 0 then 0 else ts[0].rows * |ts| * ts[0].cols
    ensures s == Stacked(ts).data
  {
    var u := Stacked(ts);
    assert |u.data| == |s|;
    forall k | 0 <= k < |s|
      ensures s[k] == u.data[k]
    {
    }
  }
}
