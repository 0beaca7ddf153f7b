/**
 * The tensor record of Tensor.h and the per-tensor helpers of core.cpp: the zero-filling
 * constructor, the shape wire writer and the bounds scan. `Real` is taken as `int`.
 */
module Core {
  import opened RowMajor
  import opened Folds

  /** A tensor: shape metadata and its row-major data vector. */
  datatype Tensor = Tensor(rows: nat, cols: nat, is1d: bool, data: seq<int>)

  /** The data vector holds exactly rows * cols elements. */
  predicate WellFormed(t: Tensor) {
    |t.data| == t.rows * t.cols
  }

  /** Element (i, j) of a well-formed tensor. */
  function At(t: Tensor, i: nat, j: nat): int
    requires WellFormed(t) && i < t.rows && j < t.cols
  {
    FlatBound(i, j, t.rows, t.cols);
    t.data[i * t.cols + j]
  }

  /** Column j of a well-formed tensor, top to bottom. */
  function Column(t: Tensor, j: nat): (c: seq<int>)
    requires WellFormed(t) && j < t.cols
    ensures |c| == t.rows
  {
    seq(t.rows, i requires 0 <= i < t.rows => At(t, i, j))
  }

  /** Row i of a well-formed tensor, left to right. */
  function Row(t: Tensor, i: nat): (r: seq<int>)
    requires WellFormed(t) && i < t.rows
    ensures |r| == t.cols
  {
    seq(t.cols, j requires 0 <= j < t.cols => At(t, i, j))
  }

  /** Element (i, j), or 0 off the grid: a total cell map for `Build`. */
  function Get(t: Tensor, i: nat, j: nat): int
    requires WellFormed(t)
  {
    if i < t.rows && j < t.cols then At(t, i, j) else 0
  }

  /** Two well-formed tensors of one shape that agree at every (i, j) hold the same data. */
  lemma SameAt(a: Tensor, b: Tensor)
    requires WellFormed(a) && WellFormed(b) && a.rows == b.rows && a.cols == b.cols
    requires forall i, j :: 0 <= i < a.rows && 0 <= j < a.cols ==> At(a, i, j) == At(b, i, j)
    ensures a.data == b.data
  {
    forall k | 0 <= k < |a.data|
      ensures a.data[k] == b.data[k]
    {
      Split(k, a.rows, a.cols);
      assert At(a, k / a.cols, k % a.cols) == At(b, k / a.cols, k % a.cols);
    }
  }

  /** The well-formed tensor whose cell (i, j) is f(i, j). */
  function Build(rows: nat, cols: nat, is1d: bool, f: (nat, nat) -> int): (t: Tensor)
    ensures WellFormed(t) && t.rows == rows && t.cols == cols && t.is1d == is1d
  {
    Tensor(rows, cols, is1d, seq(rows * cols, k requires 0 <= k < rows * cols => f(k / cols, k % cols)))
  }

  /** Reading cell (i, j) of a built tensor gives f(i, j). */
  lemma BuildCell(rows: nat, cols: nat, is1d: bool, f: (nat, nat) -> int, i: nat, j: nat)
    requires i < rows && j < cols
    ensures At(Build(rows, cols, is1d, f), i, j) == f(i, j)
  {
    var t := Build(rows, cols, is1d, f);
    var k := i * cols + j;
    FlatBound(i, j, rows, cols);
    Decode(i, j, cols);
    assert t.data[k] == f(k / cols, k % cols);
  }

  /** Every cell of a built tensor is f at that cell. */
  lemma {:induction false} BuildAt(rows: nat, cols: nat, is1d: bool, f: (nat, nat) -> int)
    ensures forall i, j :: 0 <= i < rows && 0 <= j < cols ==> At(Build(rows, cols, is1d, f), i, j) == f(i, j)
  {
    forall i, j | 0 <= i < rows && 0 <= j < cols
      ensures At(Build(rows, cols, is1d, f), i, j) == f(i, j)
    {
      BuildCell(rows, cols, is1d, f, i, j);
    }
  }

  /** Cell maps that agree on the whole grid build the same tensor. */
  lemma {:induction false} BuildSame(rows: nat, cols: nat, is1d: bool, f: (nat, nat) -> int, g: (nat, nat) -> int)
    requires forall r: nat, c: nat :: r < rows && c < cols ==> f(r, c) == g(r, c)
    ensures Build(rows, cols, is1d, f) == Build(rows, cols, is1d, g)
  {
    var a, b := Build(rows, cols, is1d, f), Build(rows, cols, is1d, g);
    forall k | 0 <= k < rows * cols
      ensures a.data[k] == b.data[k]
    {
      Split(k, rows, cols);
    }
  }

  /**
   * Cell maps that differ only at (i, j) build data that differ only at flat index
   * i * cols + j: one store into a buffer moves it from one built tensor to the next.
   */
  lemma {:induction false} BuildUpdate(rows: nat, cols: nat, is1d: bool, f: (nat, nat) -> int, g: (nat, nat) -> int, i: nat, j: nat)
    requires i < rows && j < cols
    requires forall r: nat, c: nat :: r < rows && c < cols && (r != i || c != j) ==> f(r, c) == g(r, c)
    ensures 0 <= i * cols + j < rows * cols
    ensures Build(rows, cols, is1d, g).data == Build(rows, cols, is1d, f).data[i * cols + j := g(i, j)]
  {
    var a, b := Build(rows, cols, is1d, f), Build(rows, cols, is1d, g);
    var w := i * cols + j;
    FlatBound(i, j, rows, cols);
    Decode(i, j, cols);
    forall k | 0 <= k < rows * cols
      ensures b.data[k] == a.data[w := g(i, j)][k]
    {
      Split(k, rows, cols);
      if k != w {
        assert k / cols != i || k % cols != j;
      }
    }
  }

  /** Building a tensor from its own cells gives it back. */
  lemma {:induction false} BuildGet(t: Tensor)
    requires WellFormed(t)
    ensures Build(t.rows, t.cols, t.is1d, (r: nat, c: nat) => Get(t, r, c)) == t
  {
    BuildAt(t.rows, t.cols, t.is1d, (r: nat, c: nat) => Get(t, r, c));
    SameAt(Build(t.rows, t.cols, t.is1d, (r: nat, c: nat) => Get(t, r, c)), t);
  }

  /** `Tensor(rows, cols, is1d)`: a fresh buffer of rows * cols zeros. */
  function Zeros(rows: nat, cols: nat, is1d: bool): (t: Tensor)
    ensures WellFormed(t) && t.rows == rows && t.cols == cols && t.is1d == is1d
    ensures forall k :: 0 <= k < |t.data| ==> t.data[k] == 0
  {
    Tensor(rows, cols, is1d, seq(rows * cols, _ => 0))
  }

  const TWO_32: int := 0x1_0000_0000
  const TWO_31: int := 0x8000_0000

  /** `static_cast<size_t>` on the 32-bit target: the value modulo 2^32. */
  function SizeT(x: int): (n: nat)
    ensures n < TWO_32 && (x - n) % TWO_32 == 0
    ensures 0 <= x < TWO_32 ==> n == x
  {
    x % TWO_32
  }

  /** A size stored into a 32-bit `int` slot of the shape wire, read back as a signed value. */
  function Int32(n: int): (v: int)
    ensures -TWO_31 <= v < TWO_31 && (n - v) % TWO_32 == 0
    ensures -TWO_31 <= n < TWO_31 ==> v == n
  {
    var m := n % TWO_32;
    if m < TWO_31 then m else m - TWO_32
  }

  /** The shape triple of `get_shape`. */
  datatype Shape = Shape(rows: nat, cols: nat, is1d: bool)

  function ShapeOf(t: Tensor): Shape {
    Shape(t.rows, t.cols, t.is1d)
  }

  /**
   * `update_shape_wire` and `tensor_get_shape`: slots 0, 1, 2 of the wire receive rows, cols
   * and is1d (as 1 or 0); every other slot is left alone.
   */
  function WriteShapeWire(s: Shape, wire: seq<int>): (w: seq<int>)
    requires |wire| >= 3
    ensures |w| == |wire|
    ensures w[0] == Int32(s.rows) && w[1] == Int32(s.cols) && w[2] == (if s.is1d then 1 else 0)
    ensures forall k :: 3 <= k < |w| ==> w[k] == wire[k]
  {
    [Int32(s.rows), Int32(s.cols), if s.is1d then 1 else 0] + wire[3..]
  }

  /** The bounding box of points stored one per row, x in column 0 and y in column 1. */
  datatype Bounds = Bounds(xmin: int, ymin: int, xmax: int, ymax: int)

  function XS(t: Tensor): seq<int>
    requires WellFormed(t)
  {
    if t.cols > 0 then Column(t, 0) else []
  }

  function YS(t: Tensor): seq<int>
    requires WellFormed(t)
  {
    if t.cols > 1 then Column(t, 1) else []
  }

  /** The box the scan of get_bounds reaches from the given x and y seeds. */
  function SeededBounds(t: Tensor, xseed: int, yseed: int): Bounds
    requires WellFormed(t)
  {
    Bounds(FoldFrom(Minimum, xseed, XS(t)), FoldFrom(Minimum, yseed, YS(t)),
           FoldFrom(Maximum, xseed, XS(t)), FoldFrom(Maximum, yseed, YS(t)))
  }

  /** The box after the scan has seen px column-0 and py column-1 elements. */
  function PartialBounds(t: Tensor, seed: Bounds, px: nat, py: nat): Bounds
    requires WellFormed(t) && px <= |XS(t)| && py <= |YS(t)|
  {
    Bounds(FoldFrom(Minimum, seed.xmin, XS(t)[..px]), FoldFrom(Minimum, seed.ymin, YS(t)[..py]),
           FoldFrom(Maximum, seed.xmax, XS(t)[..px]), FoldFrom(Maximum, seed.ymax, YS(t)[..py]))
  }

  /** Element (i, 0) extends the x range of the partial box by one more element of column 0. */
  lemma {:induction false} ScanX(t: Tensor, seed: Bounds, i: nat, py: nat)
    requires WellFormed(t) && 0 < t.cols && i < t.rows && py <= |YS(t)|
    ensures var b, v := PartialBounds(t, seed, i, py), At(t, i, 0);
            PartialBounds(t, seed, i + 1, py) == b.(xmin := Min(b.xmin, v), xmax := Max(b.xmax, v))
  {
    assert XS(t)[..i + 1] == XS(t)[..i] + [At(t, i, 0)];
    FoldFromSnoc(Minimum, seed.xmin, XS(t)[..i], At(t, i, 0));
    FoldFromSnoc(Maximum, seed.xmax, XS(t)[..i], At(t, i, 0));
  }

  /** Element (i, 1) extends the y range of the partial box by one more element of column 1. */
  lemma {:induction false} ScanY(t: Tensor, seed: Bounds, px: nat, i: nat)
    requires WellFormed(t) && 1 < t.cols && i < t.rows && px <= |XS(t)|
    ensures var b, v := PartialBounds(t, seed, px, i), At(t, i, 1);
            PartialBounds(t, seed, px, i + 1) == b.(ymin := Min(b.ymin, v), ymax := Max(b.ymax, v))
  {
    assert YS(t)[..i + 1] == YS(t)[..i] + [At(t, i, 1)];
    FoldFromSnoc(Minimum, seed.ymin, YS(t)[..i], At(t, i, 1));
    FoldFromSnoc(Maximum, seed.ymax, YS(t)[..i], At(t, i, 1));
  }

  /** The nested scan of get_bounds from an arbitrary starting box. */
  method ScanBounds(t: Tensor, seed: Bounds) returns (b: Bounds)
    requires WellFormed(t) && seed.xmin == seed.xmax && seed.ymin == seed.ymax
    ensures b == SeededBounds(t, seed.xmin, seed.ymin)
  {
    b := seed;
    for i := 0 to t.rows
      invariant b == PartialBounds(t, seed, if t.cols > 0 then i else 0, if t.cols > 1 then i else 0)
    {
      for j := 0 to t.cols
        invariant b == PartialBounds(t, seed,
                                     if t.cols > 0 then (if j > 0 then i + 1 else i) else 0,
                                     if t.cols > 1 then (if j > 1 then i + 1 else i) else 0)
      {
        FlatBound(i, j, t.rows, t.cols);
        var current := t.data[i * t.cols + j];
        if j == 0 {
          ScanX(t, seed, i, if t.cols > 1 then i else 0);
          b := b.(xmin := Min(b.xmin, current), xmax := Max(b.xmax, current));
        } else if j == 1 {
          ScanY(t, seed, i + 1, i);
          b := b.(ymin := Min(b.ymin, current), ymax := Max(b.ymax, current));
        }
      }
    }
    assert XS(t)[..|XS(t)|] == XS(t) && YS(t)[..|YS(t)|] == YS(t);
  }

  /** `Tensor::get_bounds` as written: all four fields are seeded with vec[0]. */
  method GetBoundsAsWritten(t: Tensor) returns (b: Bounds)
    requires WellFormed(t) && |t.data| > 0
    ensures b == SeededBounds(t, t.data[0], t.data[0])
  {
    var v0 := t.data[0];
    b := ScanBounds(t, Bounds(v0, v0, v0, v0));
  }

  /**
   * What the box of get_bounds as written promises: x ranges over column 0 with both ends
   * attained, y covers column 1 when there is one, and the seed vec[0] lies inside the y
   * range (without a second column the y range is exactly that seed).
   */
  predicate AsWrittenBox(t: Tensor, b: Bounds)
    requires WellFormed(t) && |t.data| > 0
  {
    0 < t.cols &&
    (forall i :: 0 <= i < t.rows ==> b.xmin <= At(t, i, 0) <= b.xmax) &&
    b.xmin in XS(t) && b.xmax in XS(t) &&
    (t.cols >= 2 ==> forall i :: 0 <= i < t.rows ==> b.ymin <= At(t, i, 1) <= b.ymax) &&
    b.ymin <= t.data[0] <= b.ymax && (t.cols < 2 ==> b.ymin == b.ymax == t.data[0])
  }

  /** The as-written scan keeps those promises. */
  lemma AsWrittenBoxHolds(t: Tensor)
    requires WellFormed(t) && |t.data| > 0
    ensures AsWrittenBox(t, SeededBounds(t, t.data[0], t.data[0]))
  {
    assert t.cols > 0 && t.rows > 0;
    var v0 := t.data[0];
    assert v0 == At(t, 0, 0) == XS(t)[0];
    MinFoldBounds(v0, XS(t));
    MaxFoldBounds(v0, XS(t));
    MinFoldBounds(v0, YS(t));
    MaxFoldBounds(v0, YS(t));
    assert forall i :: 0 <= i < t.rows ==> At(t, i, 0) == XS(t)[i];
    assert t.cols >= 2 ==> forall i :: 0 <= i < t.rows ==> At(t, i, 1) == YS(t)[i];
  }

  /**
   * For the two points (0, 5) and (1, 6) the as-written scan reports ymin = 0, a value
   * that is no y coordinate at all: the x coordinate of the first point leaks into the y range.
   */
  lemma BoundsSeedLeak()
    ensures var t := Tensor(2, 2, false, [0, 5, 1, 6]);
            SeededBounds(t, t.data[0], t.data[0]).ymin == 0 && 0 !in YS(t)
  {
    var t := Tensor(2, 2, false, [0, 5, 1, 6]);
    assert At(t, 0, 1) == 5 && At(t, 1, 1) == 6;
    assert YS(t) == [5, 6];
    assert YS(t)[..1] == [5] && [5][..0] == [];
    assert FoldFrom(Minimum, 0, [5]) == 0;
  }

  /**
   * get_bounds with the y fields seeded from the first y coordinate: x and y each range over
   * their own column, every value lies inside, and both ends are attained.
   */
  method GetBounds(t: Tensor) returns (b: Bounds)
    requires WellFormed(t) && |t.data| > 0
    ensures forall i :: 0 <= i < t.rows ==> b.xmin <= At(t, i, 0) <= b.xmax
    ensures b.xmin in XS(t) && b.xmax in XS(t)
    ensures t.cols >= 2 ==> forall i :: 0 <= i < t.rows ==> b.ymin <= At(t, i, 1) <= b.ymax
    ensures t.cols >= 2 ==> b.ymin in YS(t) && b.ymax in YS(t)
    ensures t.cols < 2 ==> b.ymin == b.ymax == t.data[0]
  {
    assert t.cols > 0 && t.rows > 0;
    var x0 := t.data[0];
    assert x0 == At(t, 0, 0) == XS(t)[0];
    var y0 := x0;
    if t.cols >= 2 {
      y0 := t.data[1];
      assert y0 == At(t, 0, 1) == YS(t)[0];
    }
    b := ScanBounds(t, Bounds(x0, y0, x0, y0));
    MinFoldBounds(x0, XS(t));
    MaxFoldBounds(x0, XS(t));
    MinFoldBounds(y0, YS(t));
    MaxFoldBounds(y0, YS(t));
    assert forall i :: 0 <= i < t.rows ==> At(t, i, 0) == XS(t)[i];
    assert t.cols >= 2 ==> forall i :: 0 <= i < t.rows ==> At(t, i, 1) == YS(t)[i];
  }
}
