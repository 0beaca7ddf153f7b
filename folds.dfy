/**
 * Running accumulators over a sequence, processed left to right as the kernels'
 * loops do. Each aggregate is a seed and a step; the lemmas say what the
 * accumulated value means.
 */
module Folds {

  /** Largest finite single-precision value; -FLT_MAX is `std::numeric_limits<float>::lowest()`. */
  const FLT_MAX: int := 340282346638528859811704183484516925440
  const LOWEST: int := -FLT_MAX
  /** `Tensor::INF` (float infinity): modelled as an integer above every finite float. */
  const INF: int := FLT_MAX + 1

  /** A finite float element, the only kind the integer model admits as data. */
  predicate Finite(x: int) { LOWEST <= x <= FLT_MAX }

  /** `std::min(a, b)`: b only when b < a. */
  function Min(a: int, b: int): int { if b < a then b else a }
  /** `std::max(a, b)`: b only when a < b. */
  function Max(a: int, b: int): int { if a < b then b else a }

  /** The accumulator loops of reduction.cpp and get_bounds. */
  datatype Agg = All | Any | Maximum | Minimum | Sum | Prod

  /** The accumulator a reduction starts from. */
  function Seed(agg: Agg): int {
    match agg
    case All => 1
    case Any => 0
    case Maximum => LOWEST
    case Minimum => INF
    case Sum => 0
    case Prod => 1
  }

  /** One loop iteration: the accumulator after seeing element x. */
  function Step(agg: Agg, acc: int, x: int): int {
    match agg
    case All => if x == 0 then 0 else acc
    case Any => if x != 0 then 1 else acc
    case Maximum => if x > acc then x else acc
    case Minimum => if x < acc then x else acc
    case Sum => acc + x
    case Prod => acc * x
  }

  /** The accumulator after processing all of s, starting from acc. */
  function FoldFrom(agg: Agg, acc: int, s: seq<int>): int
    decreases |s|
  {
    if |s| == 0 then acc else Step(agg, FoldFrom(agg, acc, s[..|s| - 1]), s[|s| - 1])
  }

  /** The value a reduction loop leaves for slice s. */
  function Fold(agg: Agg, s: seq<int>): int {
    FoldFrom(agg, Seed(agg), s)
  }

  /** `all` and `any` stop at the first element that settles the answer (`break`). */
  predicate Settled(agg: Agg, acc: int) {
    (agg == All && acc == 0) || (agg == Any && acc == 1)
  }

  /** Processing one more element extends the fold by one step. */
  lemma FoldFromSnoc(agg: Agg, acc: int, s: seq<int>, x: int)
    ensures FoldFrom(agg, acc, s + [x]) == Step(agg, FoldFrom(agg, acc, s), x)
  {
    assert (s + [x])[..|s|] == s;
  }

  /** Once `all`/`any` has settled, the rest of the slice does not change it: the `break` is sound. */
  lemma {:induction false} SettledStays(agg: Agg, acc: int, s: seq<int>, rest: seq<int>)
    requires Settled(agg, FoldFrom(agg, acc, s))
    ensures FoldFrom(agg, acc, s + rest) == FoldFrom(agg, acc, s)
    decreases |rest|
  {
    if |rest| == 0 {
      assert s + rest == s;
    } else {
      var init := rest[..|rest| - 1];
      SettledStays(agg, acc, s, init);
      assert (s + rest)[..|s + rest| - 1] == s + init;
      assert FoldFrom(agg, acc, s + rest) == Step(agg, FoldFrom(agg, acc, s + init), rest[|rest| - 1]);
    }
  }

  /** A running minimum is at most its seed and every element, and is the seed or an element. */
  lemma {:induction false} MinFoldBounds(seed: int, s: seq<int>)
    ensures FoldFrom(Minimum, seed, s) <= seed
    ensures forall k :: 0 <= k < |s| ==> FoldFrom(Minimum, seed, s) <= s[k]
    ensures FoldFrom(Minimum, seed, s) == seed || FoldFrom(Minimum, seed, s) in s
    decreases |s|
  {
    if |s| > 0 {
      var init := s[..|s| - 1];
      MinFoldBounds(seed, init);
      assert forall k :: 0 <= k < |init| ==> init[k] == s[k];
    }
  }

  /** A running maximum is at least its seed and every element, and is the seed or an element. */
  lemma {:induction false} MaxFoldBounds(seed: int, s: seq<int>)
    ensures FoldFrom(Maximum, seed, s) >= seed
    ensures forall k :: 0 <= k < |s| ==> FoldFrom(Maximum, seed, s) >= s[k]
    ensures FoldFrom(Maximum, seed, s) == seed || FoldFrom(Maximum, seed, s) in s
    decreases |s|
  {
    if |s| > 0 {
      var init := s[..|s| - 1];
      MaxFoldBounds(seed, init);
      assert forall k :: 0 <= k < |init| ==> init[k] == s[k];
    }
  }

  /** `all` yields 1 exactly when no element of the slice is 0, else 0. */
  lemma {:induction false} AllMeaning(s: seq<int>)
    ensures Fold(All, s) == if forall k :: 0 <= k < |s| ==> s[k] != 0 then 1 else 0
    decreases |s|
  {
    if |s| > 0 {
      var init := s[..|s| - 1];
      AllMeaning(init);
      assert forall k :: 0 <= k < |init| ==> init[k] == s[k];
    }
  }

  /** `any` yields 1 exactly when some element of the slice is non-zero, else 0. */
  lemma {:induction false} AnyMeaning(s: seq<int>)
    ensures Fold(Any, s) == if exists k :: 0 <= k < |s| && s[k] != 0 then 1 else 0
    decreases |s|
  {
    if |s| > 0 {
      var init := s[..|s| - 1];
      AnyMeaning(init);
      assert forall k :: 0 <= k < |init| ==> init[k] == s[k];
    }
  }

  /** On a non-empty slice of finite values `max` yields the slice's maximum; empty gives lowest(). */
  lemma MaxMeaning(s: seq<int>)
    requires forall k :: 0 <= k < |s| ==> Finite(s[k])
    ensures |s| == 0 ==> Fold(Maximum, s) == LOWEST
    ensures |s| > 0 ==> Fold(Maximum, s) in s && forall k :: 0 <= k < |s| ==> s[k] <= Fold(Maximum, s)
  {
    MaxFoldBounds(LOWEST, s);
    if |s| > 0 && Fold(Maximum, s) == LOWEST {
      assert s[0] <= LOWEST;
      assert s[0] == LOWEST;
    }
  }

  /** On a non-empty slice of finite values `min` yields the slice's minimum; empty gives infinity. */
  lemma MinMeaning(s: seq<int>)
    requires forall k :: 0 <= k < |s| ==> Finite(s[k])
    ensures |s| == 0 ==> Fold(Minimum, s) == INF
    ensures |s| > 0 ==> Fold(Minimum, s) in s && forall k :: 0 <= k < |s| ==> Fold(Minimum, s) <= s[k]
  {
    MinFoldBounds(INF, s);
    if |s| > 0 {
      assert Fold(Minimum, s) <= s[0] < INF;
    }
  }

  /** The sum of a sequence, defined from the front. */
  function SumOf(s: seq<int>): int {
    if |s| == 0 then 0 else s[0] + SumOf(s[1..])
  }

  /** The product of a sequence, defined from the front. */
  function ProdOf(s: seq<int>): int {
    if |s| == 0 then 1 else s[0] * ProdOf(s[1..])
  }

  lemma {:induction false} SumOfSnoc(s: seq<int>, x: int)
    ensures SumOf(s + [x]) == SumOf(s) + x
    decreases |s|
  {
    if |s| > 0 {
      assert (s + [x])[1..] == s[1..] + [x];
      SumOfSnoc(s[1..], x);
    }
  }

  lemma {:induction false} ProdOfSnoc(s: seq<int>, x: int)
    ensures ProdOf(s + [x]) == ProdOf(s) * x
    decreases |s|
  {
    if |s| > 0 {
      assert (s + [x])[1..] == s[1..] + [x];
      ProdOfSnoc(s[1..], x);
      assert s[0] * (ProdOf(s[1..]) * x) == (s[0] * ProdOf(s[1..])) * x;
    }
  }

  /** `sum` yields the slice's sum; an empty slice gives 0. */
  lemma {:induction false} SumMeaning(s: seq<int>)
    ensures Fold(Sum, s) == SumOf(s)
    decreases |s|
  {
    if |s| > 0 {
      var init := s[..|s| - 1];
      SumMeaning(init);
      assert init + [s[|s| - 1]] == s;
      SumOfSnoc(init, s[|s| - 1]);
    }
  }

  /** `prod` yields the slice's product; an empty slice gives 1. */
  lemma {:induction false} ProdMeaning(s: seq<int>)
    ensures Fold(Prod, s) == ProdOf(s)
    decreases |s|
  {
    if |s| > 0 {
      var init := s[..|s| - 1];
      ProdMeaning(init);
      assert init + [s[|s| - 1]] == s;
      ProdOfSnoc(init, s[|s| - 1]);
    }
  }
}
