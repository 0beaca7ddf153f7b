/**
 * The integer-exact kernels of basicmath.cpp: clip and square, each a range-for loop that
 * rewrites every element of a deep copy.
 */
module BasicMath {
  import opened Core
  import opened Arithmetic

  /** One element of clip: above upper becomes upper, else below lower becomes lower. */
  function ClipValue(x: int, lower: int, upper: int): int {
    if x > upper then upper else if x < lower then lower else x
  }

  /** What `Tensor::clip` returns: the source's shape with every element clipped. */
  function Clipped(t: Tensor, lower: int, upper: int): (u: Tensor)
    ensures u.rows == t.rows && u.cols == t.cols && u.is1d == t.is1d && |u.data| == |t.data|
  {
    t.(data := seq(|t.data|, k requires 0 <= k < |t.data| => ClipValue(t.data[k], lower, upper)))
  }

  /**
   * Elements above upper become upper, those below lower become lower, the rest are kept;
   * with lower <= upper every result lies in [lower, upper].
   */
  lemma ClipMeaning(t: Tensor, lower: int, upper: int)
    ensures var u := Clipped(t, lower, upper);
            forall k :: 0 <= k < |t.data| ==>
              (t.data[k] > upper ==> u.data[k] == upper) &&
              (t.data[k] < lower && t.data[k] <= upper ==> u.data[k] == lower) &&
              (lower <= t.data[k] <= upper ==> u.data[k] == t.data[k])
    ensures lower <= upper ==> forall k :: 0 <= k < |t.data| ==> lower <= Clipped(t, lower, upper).data[k] <= upper
  {
  }

  /** With lower <= upper, clipping twice with the same bounds is clipping once. */
  lemma {:induction false} ClipIdempotent(t: Tensor, lower: int, upper: int)
    requires lower <= upper
    ensures Clipped(Clipped(t, lower, upper), lower, upper) == Clipped(t, lower, upper)
  {
    var u := Clipped(t, lower, upper);
    ClipMeaning(t, lower, upper);
    ClipMeaning(u, lower, upper);
    assert Clipped(u, lower, upper).data == u.data;
  }

  /** With lower <= upper, clip is maximum with lower followed by minimum with upper. */
  lemma {:induction false} ClipIsMaxThenMin(t: Tensor, lower: int, upper: int)
    requires WellFormed(t) && lower <= upper
    ensures PairedScalar(MinOf, PairedScalar(MaxOf, t, lower), upper) == Clipped(t, lower, upper)
  {
    var m := PairedScalar(MaxOf, t, lower);
    assert PairedScalar(MinOf, m, upper).data == Clipped(t, lower, upper).data;
  }

  /** Inverted bounds send every element to one of them: above upper to upper, else to lower. */
  lemma ClipInverted(t: Tensor, lower: int, upper: int)
    requires upper < lower
    ensures forall k :: 0 <= k < |t.data| ==>
              Clipped(t, lower, upper).data[k] == if t.data[k] > upper then upper else lower
  {
  }

  /** The clip kernel: a deep copy, then one pass rewriting each element. */
  method Clip(t: Tensor, lower: int, upper: int) returns (u: Tensor)
    ensures u == Clipped(t, lower, upper)
  {
    var vec := new int[|t.data|](k requires 0 <= k < |t.data| => t.data[k]);
    for k := 0 to vec.Length
      invariant forall m :: 0 <= m < k ==> vec[m] == ClipValue(t.data[m], lower, upper)
      invariant forall m :: k <= m < vec.Length ==> vec[m] == t.data[m]
    {
      if vec[k] > upper {
        vec[k] := upper;
      } else if vec[k] < lower {
        vec[k] := lower;
      }
    }
    u := t.(data := vec[..]);
    assert u.data == Clipped(t, lower, upper).data;
  }

  /** What `Tensor::square` returns: the source's shape with every element multiplied by itself. */
  function Squared(t: Tensor): (u: Tensor)
    ensures u.rows == t.rows && u.cols == t.cols && u.is1d == t.is1d && |u.data| == |t.data|
  {
    t.(data := seq(|t.data|, k requires 0 <= k < |t.data| => t.data[k] * t.data[k]))
  }

  /** Squaring is squared_diff against the scalar 0, so every result is non-negative and 0 only for 0. */
  lemma {:induction false} SquareIsSquaredDiffZero(t: Tensor)
    requires WellFormed(t)
    ensures Squared(t) == PairedScalar(SquaredDiff, t, 0)
    ensures forall k :: 0 <= k < |t.data| ==> Squared(t).data[k] >= 0 && (Squared(t).data[k] == 0 <==> t.data[k] == 0)
  {
    assert Squared(t).data == PairedScalar(SquaredDiff, t, 0).data;
    ScalarIsConstantTensor(SquaredDiff, t, 0);
    PairedMeaning(t, Constant(t, 0));
    assert forall k :: 0 <= k < |t.data| ==> Constant(t, 0).data[k] == 0;
  }

  /** The square kernel: a deep copy, then `elem *= elem` on each element. */
  method Square(t: Tensor) returns (u: Tensor)
    ensures u == Squared(t)
  {
    var vec := new int[|t.data|](k requires 0 <= k < |t.data| => t.data[k]);
    for k := 0 to vec.Length
      invariant forall m :: 0 <= m < k ==> vec[m] == t.data[m] * t.data[m]
      invariant forall m :: k <= m < vec.Length ==> vec[m] == t.data[m]
    {
      vec[k] := vec[k] * vec[k];
    }
    u := t.(data := vec[..]);
    assert u.data == Squared(t).data;
  }
}
