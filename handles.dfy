/**
 * Tensor.ts, instance side: a `Tensor` handle holds a foreign object id, its data pointer and
 * a copy of its shape; this module also states what a registry of handles must keep true.
 */
module Handles {
  import opened Wrappers
  import RowMajor
  import Core
  import Foreign
  import Arithmetic
  import Matrices
  import Transformations
  import SliceJoin
  import BasicMath
  import Reduction
  import Creation

  /** What the constructor's first argument can be. */
  datatype HostData =
    | Falsy                             // undefined, null, 0, ...: rejected
    | NullData                          // the private NULL sentinel: shape only, no data written
    | Typed(values: seq<int>)           // a typed array
    | Flat(values: seq<int>)            // an array whose first element is not an array
    | Nested(rowsOf: seq<seq<int>>)     // an array of arrays
    | NotArray(length: nat)             // any other truthy value; its `length` as the module reads it

  /** What the constructor's second argument can be. */
  datatype ShapeArg = NoShape | NotAnArray | Dims(dims: seq<nat>)

  /** The errors the host raises, and those of the foreign module it lets through. */
  datatype HostError =
    | MissingData                       // TypeError: first argument must be data
    | ShapeNotArray                     // TypeError: shape must be an array
    | InconsistentColumns               // jagged 2-d data
    | NotArrayData                      // setData: neither Array nor TypedArray
    | SizeMismatch(expected: int, got: nat)
    | SizeMismatchNaN(got: nat)         // setData against the undefined shape of an empty shape array
    | AxisOn1d                          // mean, norm, reverse with an axis on a 1-d tensor
    | TransposeOn1d
    | DiagOn2d
    | PadRowsOn1d
    | PadNotIterable                    // TypeError: row paddings that cannot be destructured
    | IdentityOn1d
    | StackEmpty                        // TypeError: matrices[0] is undefined
    | NotATensor                        // TypeError: matMul's argument is not a Tensor
    | Deleted                           // RangeError: accessing a deleted tensor
    | ForeignFailed(reason: Foreign.ForeignError)

  /** Data is an array of arrays: its first element is itself an array. */
  predicate IsNested(data: HostData) {
    data.Nested? && |data.rowsOf| > 0
  }

  /** Every row has the length of the first. */
  predicate Consistent(rs: seq<seq<int>>) {
    forall i :: 0 <= i < |rs| ==> |rs[i]| == |rs[0]|
  }

  /** The rows of a nested array laid end to end: `Array.prototype.flat`. */
  function Joined(rs: seq<seq<int>>): seq<int> {
    if |rs| == 0 then [] else Joined(rs[..|rs| - 1]) + rs[|rs| - 1]
  }

  /** Consistent rows join to rows * cols elements, row r at offset r * cols. */
  lemma {:induction false} JoinedLength(rs: seq<seq<int>>, cols: nat)
    requires forall i :: 0 <= i < |rs| ==> |rs[i]| == cols
    ensures |Joined(rs)| == |rs| * cols
    decreases |rs|
  {
    if |rs| > 0 {
      JoinedLength(rs[..|rs| - 1], cols);
    }
  }

  /** Element c of row r of consistent rows sits at r * cols + c of their join. */
  lemma {:induction false} JoinedAt(rs: seq<seq<int>>, cols: nat, r: nat, c: nat)
    requires forall i :: 0 <= i < |rs| ==> |rs[i]| == cols
    requires r < |rs| && c < cols
    ensures r * cols + c < |Joined(rs)| && Joined(rs)[r * cols + c] == rs[r][c]
    decreases |rs|
  {
    var init := rs[..|rs| - 1];
    var n := |rs| - 1;
    JoinedLength(init, cols);
    assert Joined(rs) == Joined(init) + rs[n];
    RowMajor.FlatBound(r, c, |rs|, cols);
    JoinedLength(rs, cols);
    if r < n {
      JoinedAt(init, cols, r, c);
      assert init[r] == rs[r];
      RowMajor.FlatBound(r, c, n, cols);
    } else {
      assert r * cols + c - |Joined(init)| == c;
    }
  }

  /**
   * Entry k of a shape array as the module's integer parameters read it: an undefined entry
   * becomes 0. Only an empty shape array has one; the host keeps it undefined (see Unshaped).
   */
  function Dim(dims: seq<nat>, k: nat): nat {
    if k < |dims| then dims[k] else 0
  }

  /**
   * `_inferShape`: a given shape decides alone (one entry: 1-d of that length; otherwise
   * its first two entries); without one, a typed or flat array is 1-d of its length and a
   * nested array is length x length of its first row, every row checked against the first.
   * Anything else leaves the initial 0 x 0.
   */
  function InferredShape(data: HostData, shape: ShapeArg): (r: Result<Core.Shape, HostError>)
    ensures r.Err? <==> !shape.Dims? && IsNested(data) && !Consistent(data.rowsOf)
    ensures r.Err? ==> r.error == InconsistentColumns
    ensures r.Ok? && r.value.is1d ==> r.value.rows == 1
  {
    if shape.Dims? then
      if |shape.dims| == 1 then Ok(Core.Shape(1, shape.dims[0], true))
      else Ok(Core.Shape(Dim(shape.dims, 0), Dim(shape.dims, 1), false))
    else match data
      case Typed(v) => Ok(Core.Shape(1, |v|, true))
      case Flat(v) => Ok(Core.Shape(1, |v|, true))
      case Nested(rs) =>
        if |rs| == 0 then Ok(Core.Shape(1, 0, true))
        else if Consistent(rs) then Ok(Core.Shape(|rs|, |rs[0]|, false))
        else Err(InconsistentColumns)
      case NotArray(n) => Ok(Core.Shape(1, n, true))
      case _ => Ok(Core.Shape(0, 0, false))
  }

  /** `_inferShape` as the source runs it: the column check is a loop over rows 1 .. length - 1. */
  method InferShape(data: HostData, shape: ShapeArg) returns (r: Result<Core.Shape, HostError>)
    ensures r == InferredShape(data, shape)
  {
    if shape.Dims? || !data.Nested? || |data.rowsOf| == 0 {
      return InferredShape(data, shape);
    }
    var rs := data.rowsOf;
    var cols := |rs[0]|;
    var i := 1;
    while i < |rs|
      invariant 1 <= i <= |rs|
      invariant forall k :: 0 <= k < i ==> |rs[k]| == cols
    {
      if |rs[i]| != cols {
        return Err(InconsistentColumns);
      }
      i := i + 1;
    }
    r := Ok(Core.Shape(|rs|, cols, false));
  }

  /** The `shape` getter of a handle with this shape: [cols] when 1-d, else [rows, cols]. */
  function Listed(s: Core.Shape): seq<nat> {
    if s.is1d then [s.cols] else [s.rows, s.cols]
  }

  /** A shape of one or two entries is read back unchanged by the getter. */
  lemma ShapeRoundTrip(data: HostData, dims: seq<nat>)
    requires |dims| == 1 || |dims| == 2
    ensures InferredShape(data, Dims(dims)).Ok? && Listed(InferredShape(data, Dims(dims)).value) == dims
  {
  }

  /**
   * Without a shape, typed and flat arrays read back as [length] and consistent nested
   * arrays as [rows, first row's length], and their elements always fill that shape.
   */
  lemma InferredFromData(data: HostData)
    requires data.Typed? || data.Flat? || (IsNested(data) && Consistent(data.rowsOf))
    ensures var r := InferredShape(data, NoShape);
            r.Ok? && |Elements(data)| == r.value.rows * r.value.cols &&
            Listed(r.value) == if data.Nested? then [|data.rowsOf|, |data.rowsOf[0]|] else [|data.values|]
  {
    if data.Nested? {
      JoinedLength(data.rowsOf, |data.rowsOf[0]|);
    }
  }

  /** The elements `setData` writes: nested arrays flattened by one level. */
  function Elements(data: HostData): seq<int> {
    match data
    case Typed(v) => v
    case Flat(v) => v
    case Nested(rs) => Joined(rs)
    case _ => []
  }

  /** `setData`'s verdict on data for a rows x cols handle: only arrays and typed arrays, of rows * cols elements. */
  function SetDataError(data: HostData, rows: nat, cols: nat): (r: Option<HostError>)
    ensures r.None? <==> (data.Typed? || data.Flat? || data.Nested?) && |Elements(data)| == rows * cols
    ensures r.Some? && (data.Typed? || data.Flat? || data.Nested?) ==> r.value == SizeMismatch(rows * cols, |Elements(data)|)
  {
    if !(data.Typed? || data.Flat? || data.Nested?) then Some(NotArrayData)
    else if |Elements(data)| != rows * cols then Some(SizeMismatch(rows * cols, |Elements(data)|))
    else None
  }

  /** A shape array with no entries: the host's rows and cols become undefined. */
  predicate Unshaped(shape: ShapeArg) {
    shape.Dims? && |shape.dims| == 0
  }

  /**
   * The verdict of the constructor's `setData`. Against an empty shape array the expected
   * count undefined * undefined is NaN, which no length equals, so every array is refused.
   */
  function ConstructorRefusal(data: HostData, shape: ShapeArg, s: Core.Shape): (r: Option<HostError>)
    ensures !Unshaped(shape) ==> r == SetDataError(data, s.rows, s.cols)
    ensures Unshaped(shape) ==> r.Some?
    ensures Unshaped(shape) && (data.Typed? || data.Flat? || data.Nested?) ==> r == Some(SizeMismatchNaN(|Elements(data)|))
  {
    if !Unshaped(shape) then SetDataError(data, s.rows, s.cols)
    else if !(data.Typed? || data.Flat? || data.Nested?) then Some(NotArrayData)
    else Some(SizeMismatchNaN(|Elements(data)|))
  }

  /** The constructor's refusals, all raised before the module is called: falsy data, a shape that is not an array, jagged rows. */
  function Rejected(data: HostData, shape: ShapeArg): (e: Option<HostError>)
    ensures e.None? <==> !data.Falsy? && !shape.NotAnArray? && InferredShape(data, shape).Ok?
  {
    if data.Falsy? then Some(MissingData)
    else if shape.NotAnArray? then Some(ShapeNotArray)
    else if InferredShape(data, shape).Err? then Some(InconsistentColumns)
    else None
  }

  /** The elements a completed construction holds: zeros for the NULL sentinel, else the data given. */
  function Written(data: HostData, s: Core.Shape): seq<int> {
    if data.NullData? then Core.Zeros(s.rows, s.cols, s.is1d).data else Elements(data)
  }

  /** A rows x cols tensor with every element v: what `ones` writes through the constructor. */
  function Filled(rows: nat, cols: nat, is1d: bool, v: int): (t: Core.Tensor)
    ensures Core.WellFormed(t) && t.rows == rows && t.cols == cols && t.is1d == is1d
    ensures forall k :: 0 <= k < |t.data| ==> t.data[k] == v
  {
    Core.Tensor(rows, cols, is1d, seq(rows * cols, _ => v))
  }

  /** A shape the foreign module can allocate and the shape wire can carry. */
  predicate Allocatable(s: Core.Shape) {
    s.rows < Core.TWO_31 && s.cols < Core.TWO_31 && s.rows * s.cols < Foreign.MAX_ELEMS
  }

  /**
   * A host handle: Interface's `ptr`, `deleted` and `_dataPtr`, and the Tensor fields. The
   * shape, the data pointer and keepdims are settled before the handle is handed out (by the
   * constructor, `_syncShapeWire` right after `fromPointer`, or the `keepdims` assignment right
   * after a reduction) and never change after, so they are constants here.
   */
  class Tensor {
    var ptr: nat
    var deleted: bool
    const dataPtr: nat
    const rows: nat
    const cols: nat
    const is1d: bool
    const keepdims: Option<bool>

    constructor (ptr: nat, dataPtr: nat, s: Core.Shape, keepdims: Option<bool>)
      ensures this.ptr == ptr && this.dataPtr == dataPtr && !deleted && this.keepdims == keepdims
      ensures rows == s.rows && cols == s.cols && is1d == s.is1d
    {
      this.ptr, this.dataPtr, this.deleted, this.keepdims := ptr, dataPtr, false, keepdims;
      this.rows, this.cols, this.is1d := s.rows, s.cols, s.is1d;
    }

    /** The tombstone `scope` leaves on a captured handle: its id reset to 0 and marked deleted. */
    method Bury()
      modifies this
      ensures ptr == 0 && deleted
    {
      ptr := 0;
      deleted := true;
    }

    /** The `shape` getter. */
    function Shape(): (s: seq<nat>)
      reads this
      ensures |s| == (if is1d then 1 else 2) && s[|s| - 1] == cols
    {
      if is1d then [cols] else [rows, cols]
    }
  }

  /** ShapeWire: a block of three int slots a kernel writes its result's shape into. */
  datatype ShapeWire = ShapeWire(ptr: nat)
  {
    /** `sync`: the three slots read as rows, cols and the 1-d flag, then the block freed. */
    method Sync(mem: Foreign.Memory) returns (mem': Foreign.Memory, rows: int, cols: int, is1d: bool)
      requires Foreign.Sound(mem) && ptr in mem.heap && |mem.heap[ptr]| >= 3
      ensures Foreign.Sound(mem') && mem' == mem.(heap := mem.heap - {ptr})
      ensures var w := mem.heap[ptr];
              rows == w[0] && cols == w[1] && is1d == (w[2] != 0)
    {
      var w := mem.heap[ptr];
      rows, cols, is1d := w[0], w[1], w[2] != 0;
      mem' := Foreign.Free(mem, ptr);
    }
  }

  /** `new ShapeWire()`: three slots obtained with `_malloc`. */
  method NewShapeWire(mem: Foreign.Memory) returns (mem': Foreign.Memory, wire: ShapeWire)
    requires Foreign.Sound(mem)
    ensures Foreign.Sound(mem') && Foreign.Unused(mem, wire.ptr) && wire.ptr in mem'.heap && |mem'.heap[wire.ptr]| == 3
    ensures mem'.heap == mem.heap[wire.ptr := mem'.heap[wire.ptr]]
    ensures mem'.objects == mem.objects && mem'.buffers == mem.buffers
  {
    var a;
    mem', a := Foreign.Malloc(mem, 3);
    wire := ShapeWire(a);
  }

  /** The elements of a sequence of handles. */
  function Elems(v: seq<Tensor>): set<Tensor> {
    set h | h in v
  }

  /** Each handle appears once. */
  predicate Distinct(v: seq<Tensor>) {
    forall i, j :: 0 <= i < j < |v| ==> v[i] != v[j]
  }

  /** The handles of the arena that a scope tombstones, in capture order. */
  ghost function Captured(s: seq<Tensor>, result: Option<Tensor>): (v: seq<Tensor>)
    reads s
    ensures Elems(v) <= Elems(s) && |v| <= |s|
    ensures forall k :: 0 <= k < |v| ==> Some(v[k]) != result && !v[k].deleted
  {
    if |s| == 0 then []
    else
      var m := s[|s| - 1];
      ElemsInit(s);
      Captured(s[..|s| - 1], result) + (if Some(m) != result && !m.deleted then [m] else [])
  }

  /** A handle of the arena is captured exactly when it is live and not the result. */
  lemma {:induction false} CapturedMeaning(s: seq<Tensor>, result: Option<Tensor>, h: Tensor)
    ensures h in Elems(Captured(s, result)) <==> h in Elems(s) && Some(h) != result && !h.deleted
    decreases |s|
  {
    if |s| > 0 {
      CapturedMeaning(s[..|s| - 1], result, h);
      assert Elems(s) == Elems(s[..|s| - 1]) + {s[|s| - 1]} by {
        assert s == s[..|s| - 1] + [s[|s| - 1]];
      }
    }
  }

  /** CapturedMeaning for every handle at once. */
  lemma CapturedMembers(s: seq<Tensor>, result: Option<Tensor>)
    ensures forall h :: h in Elems(Captured(s, result)) <==> h in Elems(s) && Some(h) != result && !h.deleted
  {
    forall h
      ensures h in Elems(Captured(s, result)) <==> h in Elems(s) && Some(h) != result && !h.deleted
    {
      CapturedMeaning(s, result, h);
    }
  }

  /**
   * The arena is one list: a scope ending after a nested one began captures the handles
   * registered before the nested scope as well as those registered in it.
   */
  lemma {:induction false} CapturedAppend(a: seq<Tensor>, b: seq<Tensor>, result: Option<Tensor>)
    ensures Captured(a + b, result) == Captured(a, result) + Captured(b, result)
    decreases |b|
  {
    if |b| == 0 {
      assert a + b == a;
    } else {
      var b' := b[..|b| - 1];
      assert (a + b)[..|a + b| - 1] == a + b';
      CapturedAppend(a, b', result);
    }
  }

  /** Capture proceeds entry by entry: each prefix of the arena extends the capture of the one before. */
  lemma CapturedSteps(s: seq<Tensor>, result: Option<Tensor>)
    ensures forall i :: 0 <= i < |s| ==>
      Captured(s[..i + 1], result) == Captured(s[..i], result) + (if Some(s[i]) != result && !s[i].deleted then [s[i]] else []) &&
      Ptrs(Captured(s[..i + 1], result)) == Ptrs(Captured(s[..i], result)) + (if Some(s[i]) != result && !s[i].deleted then [s[i].ptr] else [])
  {
    forall i | 0 <= i < |s|
      ensures Captured(s[..i + 1], result) == Captured(s[..i], result) + (if Some(s[i]) != result && !s[i].deleted then [s[i]] else [])
      ensures Ptrs(Captured(s[..i + 1], result)) == Ptrs(Captured(s[..i], result)) + (if Some(s[i]) != result && !s[i].deleted then [s[i].ptr] else [])
    {
      assert s[..i + 1][..i] == s[..i];
      var v := Captured(s[..i + 1], result);
      if Some(s[i]) != result && !s[i].deleted {
        assert v[..|v| - 1] == Captured(s[..i], result);
      }
    }
  }

  /** The tombstone a scope leaves: the handle is deleted and its id reset to 0. */
  ghost predicate Buried(g: Tensor)
    reads g
  {
    g.deleted && g.ptr == 0
  }

  /** Handle g after a scope's sweep: tombstoned with id 0 if it was captured, untouched otherwise. */
  twostate predicate Swept(g: Tensor, result: Option<Tensor>)
    reads g
  {
    if Some(g) != result && !old(g.deleted) then g.deleted && g.ptr == 0 else Kept(g)
  }

  /** A distinct sequence has as many elements as entries. */
  lemma {:induction false} DistinctCount(v: seq<Tensor>)
    requires Distinct(v)
    ensures |Elems(v)| == |v|
    decreases |v|
  {
    if |v| > 0 {
      var init := v[..|v| - 1];
      DistinctCount(init);
      assert v == init + [v[|v| - 1]];
      assert Elems(v) == Elems(init) + {v[|v| - 1]};
      assert v[|v| - 1] !in Elems(init);
    }
  }

  /** What a captured sequence of distinct arena handles keeps: it is distinct too. */
  lemma {:induction false} CapturedDistinct(s: seq<Tensor>, result: Option<Tensor>)
    requires Distinct(s)
    ensures Distinct(Captured(s, result))
    decreases |s|
  {
    if |s| > 0 {
      var init := s[..|s| - 1];
      CapturedDistinct(init, result);
      assert Distinct(init);
      var m := s[|s| - 1];
      assert m !in Elems(init);
      assert m !in Elems(Captured(init, result));
    }
  }

  /** Appending a handle adds it to the elements. */
  lemma ElemsInit(v: seq<Tensor>)
    requires |v| > 0
    ensures Elems(v) == Elems(v[..|v| - 1]) + {v[|v| - 1]}
  {
    assert v == v[..|v| - 1] + [v[|v| - 1]];
    ElemsAppend(v[..|v| - 1], v[|v| - 1]);
  }

  lemma ElemsAppend(v: seq<Tensor>, h: Tensor)
    ensures Elems(v + [h]) == Elems(v) + {h}
  {
  }

  /** A handle not yet in a distinct sequence keeps it distinct when appended. */
  lemma AppendDistinct(v: seq<Tensor>, h: Tensor)
    requires Distinct(v) && h !in Elems(v)
    ensures Distinct(v + [h]) && Elems(v + [h]) == Elems(v) + {h}
  {
  }

  /** Handle h's shape fields and data pointer are those of the object it holds in mem. */
  ghost predicate Agrees(mem: Foreign.Memory, h: Tensor)
    reads h
  {
    h.ptr in mem.objects &&
    mem.objects[h.ptr].rows == h.rows && mem.objects[h.ptr].cols == h.cols &&
    mem.objects[h.ptr].is1d == h.is1d && mem.objects[h.ptr].buf == h.dataPtr &&
    (h.is1d ==> h.rows == 1)
  }

  /** The ids the handles hold. */
  function Ptrs(v: seq<Tensor>): (p: seq<nat>)
    reads v
    ensures |p| == |v| && forall k :: 0 <= k < |v| ==> p[k] == v[k].ptr
  {
    if |v| == 0 then [] else Ptrs(v[..|v| - 1]) + [v[|v| - 1].ptr]
  }

  /** Every object the module held before is still there, unchanged; new ones may have appeared. */
  ghost predicate Grown(mem: Foreign.Memory, mem': Foreign.Memory) {
    forall id :: id in mem.objects ==> id in mem'.objects && mem'.objects[id] == mem.objects[id]
  }

  /** The handle's fields are as they were. */
  twostate predicate Kept(g: Tensor)
    reads g
  {
    g.ptr == old(g.ptr) && g.deleted == old(g.deleted)
  }

  /** The static fields of Tensor, with the ghost ownership the model adds to them. */
  datatype Snapshot = Snapshot(scoped: seq<Tensor>, inScope: bool, count: int,
                               owner: map<nat, Tensor>, handles: set<Tensor>)

  /** The statics after the constructor completed handle h over id p. */
  function Admit(s: Snapshot, h: Tensor, p: nat): Snapshot {
    Snapshot(if s.inScope then s.scoped + [h] else s.scoped, s.inScope, s.count + 1,
             s.owner[p := h], s.handles + {h})
  }

  /** The shape `fromPointer(shape, is1d, ptr)` gives a handle: `_inferShape` of [cols] when is1d, else of [rows, cols]. */
  function PointerShape(rows: nat, cols: nat, is1d: bool): (s: Core.Shape)
    ensures Listed(s) == if is1d then [cols] else [rows, cols]
  {
    InferredShape(NullData, Dims(if is1d then [cols] else [rows, cols])).value
  }

  /** What `reshape` is given: a shape array, or rows with cols possibly undefined. */
  datatype ReshapeArg = ShapeList(dims: seq<int>) | RowsCols(rows: int, cols: Option<int>)

  /** A JavaScript number passed to an `int` parameter of the module: ToInt32, undefined giving 0. */
  function ToInt32(v: Option<int>): (n: int)
    ensures Transformations.IsInt(n)
    ensures v.Some? && Transformations.IsInt(v.value) ==> n == v.value
    ensures v.None? ==> n == 0
  {
    if v.None? then 0 else Core.Int32(v.value)
  }

  /** The entry of a JavaScript array at index k, undefined past its end. */
  function Entry(d: seq<int>, k: nat): Option<int> {
    if k < |d| then Some(d[k]) else None
  }

  /** The rows and cols `reshape` passes on: destructured from an array (which overrides cols), or as given. */
  function ReshapeArgs(arg: ReshapeArg): (rc: (int, int))
    ensures Transformations.IsInt(rc.0) && Transformations.IsInt(rc.1)
  {
    match arg
    case ShapeList(d) => (ToInt32(Entry(d, 0)), ToInt32(Entry(d, 1)))
    case RowsCols(rows, cols) => (ToInt32(Some(rows)), ToInt32(cols))
  }

  /** Whether `reshape` was given a cols: the second entry of an array, or the second argument. */
  predicate ColsGiven(arg: ReshapeArg) {
    match arg
    case ShapeList(d) => |d| >= 2
    case RowsCols(_, cols) => cols.Some?
  }

  /**
   * The arguments `reshape` evidently means to pass: as `ReshapeArgs`, except that a missing
   * cols is sent as -2, the kernel's alias for "not given", rather than as undefined, which is 0.
   */
  function ReshapeArgsIntended(arg: ReshapeArg): (rc: (int, int))
    ensures Transformations.IsInt(rc.0) && Transformations.IsInt(rc.1)
    ensures rc.0 == ReshapeArgs(arg).0
    ensures ColsGiven(arg) ==> rc.1 == ReshapeArgs(arg).1
    ensures !ColsGiven(arg) ==> rc.1 == -2 && ReshapeArgs(arg).1 == 0
  {
    if ColsGiven(arg) then ReshapeArgs(arg) else (ReshapeArgs(arg).0, -2)
  }

  /** As written, `reshape([-1])` reaches the kernel as -1 x 0, which the first guard refuses for any tensor. */
  lemma ReshapeMissingColsRefused(t: Core.Tensor)
    ensures ReshapeArgs(ShapeList([-1])) == (-1, 0)
    ensures Transformations.Reshape(t, -1, 0) == Err(Transformations.NegativeShape(0))
    ensures Transformations.ReshapeAsWritten(t, -1, 0) == Err(Transformations.NegativeShape(0))
  {
    Transformations.ReshapeFails(t, -1, 0);
  }

  /** With a missing cols sent as -2, `reshape([-1])` flattens any well formed tensor to 1-d, keeping its data. */
  lemma ReshapeMissingColsFlattens(t: Core.Tensor)
    requires Core.WellFormed(t)
    ensures ReshapeArgsIntended(ShapeList([-1])) == (-1, -2)
    ensures Transformations.Reshape(t, -1, -2) == Ok(Core.Tensor(1, |t.data|, true, t.data))
  {
    Transformations.ReshapeInfers(t, -1, -2);
  }

  /** The 2 x 2 case of the reshape tests: as written refused, as intended [1, 2, 3, 4] in one dimension. */
  lemma ReshapeMissingColsExample()
    ensures var t := Core.Tensor(2, 2, false, [1, 2, 3, 4]);
            var (r0, c0) := ReshapeArgs(ShapeList([-1]));
            var (r1, c1) := ReshapeArgsIntended(ShapeList([-1]));
            Transformations.Reshape(t, r0, c0).Err? &&
            Transformations.Reshape(t, r1, c1) == Ok(Core.Tensor(1, 4, true, [1, 2, 3, 4]))
  {
    var t := Core.Tensor(2, 2, false, [1, 2, 3, 4]);
    ReshapeMissingColsRefused(t);
    ReshapeMissingColsFlattens(t);
  }

  /** A failed call that left its scratch blocks behind: no object or buffer changed, the heap only grew. */
  ghost predicate Leaked(mem: Foreign.Memory, mem': Foreign.Memory) {
    mem'.objects == mem.objects && mem'.buffers == mem.buffers && mem.heap.Keys <= mem'.heap.Keys
  }


  /** Slots 0..2 of a wire hold rows, cols and the 1-d flag as `sync` reads them back. */
  predicate Carries(w: seq<int>, rows: nat, cols: nat, is1d: bool) {
    |w| >= 3 && w[0] == rows && w[1] == cols && (w[2] != 0) == is1d
  }

  /** What `update_shape_wire` writes for a shape the wire's int slots can hold, `sync` reads back unchanged. */
  lemma WiredShape(s: Core.Shape, before: seq<int>)
    requires |before| >= 3 && s.rows < Core.TWO_31 && s.cols < Core.TWO_31
    ensures Carries(Core.WriteShapeWire(s, before), s.rows, s.cols, s.is1d)
  {
  }

  /**
   * After a call that wrote the shape of the new object p into the wire at w: the wire
   * carries that shape, and freeing it gives back the heap of mem.
   */
  ghost predicate Wired(mem: Foreign.Memory, m: Foreign.Memory, w: nat, p: nat) {
    p in m.objects && w in m.heap && m.heap - {w} == mem.heap &&
    Carries(m.heap[w], m.objects[p].rows, m.objects[p].cols, m.objects[p].is1d) &&
    (m.objects[p].is1d ==> m.objects[p].rows == 1)
  }

  /** A scratch block allocated at a fresh address and written, once freed, leaves the heap as it was. */
  lemma Reclaimed(heap: map<nat, seq<int>>, a: nat, x: seq<int>, y: seq<int>)
    requires a !in heap
    ensures heap[a := x][a := y] - {a} == heap
  {
  }


  /** The statics after the live handle over id p was retired: uncounted and no longer owned. */
  function Dropped(s: Snapshot, p: nat): Snapshot {
    s.(count := s.count - 1, owner := s.owner - {p})
  }

  /** How the callback of `scope` ended: it returned a value (a handle, or something else), or it threw. */
  datatype Outcome = Returned(result: Option<Tensor>) | Threw

  /** The handle `scope` spares: its callback's result, when that is a handle. */
  function Survivor(o: Outcome): Option<Tensor> {
    if o.Returned? then o.result else None
  }

  /** Distinct handles owned under the ids they hold have distinct ids. */
  lemma OwnedIdsDistinct(v: seq<Tensor>, ids: seq<nat>, owner: map<nat, Tensor>)
    requires Distinct(v) && |ids| == |v|
    requires forall k :: 0 <= k < |v| ==> ids[k] in owner && owner[ids[k]] == v[k]
    ensures forall k, l :: 0 <= k < l < |ids| ==> ids[k] != ids[l]
  {
  }

  /** Removing an id after a set of them is removing the set with it. */
  lemma OwnerMinus(owner: map<nat, Tensor>, gone: set<nat>, p: nat)
    ensures owner - gone - {p} == owner - (gone + {p})
  {
  }

  /** The set of ids a list names. */
  function Ids(ids: seq<nat>): set<nat> {
    if |ids| == 0 then {} else Ids(ids[..|ids| - 1]) + {ids[|ids| - 1]}
  }

  /** A list of non-null ids names the ids `_tensor_batch_delete` deletes. */
  lemma {:induction false} IdsNonNull(ids: seq<nat>)
    requires forall k :: 0 <= k < |ids| ==> ids[k] > 0
    ensures Ids(ids) == Foreign.NonNull(ids)
    decreases |ids|
  {
    if |ids| > 0 {
      IdsNonNull(ids[..|ids| - 1]);
      Foreign.NonNullStep(ids, |ids| - 1);
      assert ids[..|ids|] == ids;
    }
  }

  /** The ids a list names are exactly its entries. */
  lemma {:induction false} IdsMembers(ids: seq<nat>)
    ensures forall p :: p in Ids(ids) <==> exists k :: 0 <= k < |ids| && ids[k] == p
    decreases |ids|
  {
    if |ids| > 0 {
      var init := ids[..|ids| - 1];
      IdsMembers(init);
      forall p
        ensures p in Ids(ids) <==> exists k :: 0 <= k < |ids| && ids[k] == p
      {
        if p in Ids(init) {
          var k :| 0 <= k < |init| && init[k] == p;
          assert ids[k] == p;
        }
        if exists k :: 0 <= k < |ids| && ids[k] == p {
          var k :| 0 <= k < |ids| && ids[k] == p;
          if k < |init| {
            assert init[k] == p;
          }
        }
      }
    }
  }

  /** Removing distinct ids of a map removes one entry each. */
  lemma {:induction false} MinusCount(owner: map<nat, Tensor>, ids: seq<nat>)
    requires forall k :: 0 <= k < |ids| ==> ids[k] in owner
    requires forall k, l :: 0 <= k < l < |ids| ==> ids[k] != ids[l]
    ensures |owner - Ids(ids)| == |owner| - |ids|
    decreases |ids|
  {
    if |ids| > 0 {
      var init := ids[..|ids| - 1];
      var p := ids[|ids| - 1];
      MinusCount(owner, init);
      IdsMembers(init);
      assert p !in Ids(init);
      OwnerMinus(owner, Ids(init), p);
      var rest := owner - Ids(init);
      assert p in rest;
      assert (rest - {p}).Keys == rest.Keys - {p};
    }
  }

  /**
   * The registry's bookkeeping: the arena holds distinct known handles, the live handles are
   * exactly the undeleted ones, each owning the id it holds, and the counter counts them.
   */
  ghost predicate Tracked(s: Snapshot)
    reads s.handles
  {
    Elems(s.scoped) <= s.handles && Distinct(s.scoped) &&
    (forall p {:trigger p in s.owner} :: p in s.owner ==> s.owner[p] in s.handles && s.owner[p].ptr == p && !s.owner[p].deleted) &&
    (forall h {:trigger h in s.handles} :: h in s.handles && !h.deleted ==> h.ptr in s.owner && s.owner[h.ptr] == h) &&
    s.count == |s.owner|
  }

  /** Every live handle agrees with its object. */
  ghost predicate Agreeing(mem: Foreign.Memory, handles: set<Tensor>)
    reads handles
  {
    forall h {:trigger h in handles} :: h in handles && !h.deleted ==> Agrees(mem, h)
  }

  /** A sound memory, tracked handles agreeing with it, and only ids of its objects owned. */
  ghost predicate Coherent(mem: Foreign.Memory, s: Snapshot)
    reads s.handles
  {
    Foreign.Sound(mem) && Tracked(s) && Agreeing(mem, s.handles) && s.owner.Keys <= mem.objects.Keys
  }

  /** A step of the module that only added objects, the handles left alone, keeps the registry coherent. */
  twostate lemma Stepped(new mem: Foreign.Memory, new mem': Foreign.Memory, new s: Snapshot)
    requires old(allocated(s)) && old(Coherent(mem, s)) && Foreign.Sound(mem') && Grown(mem, mem')
    requires forall g :: g in s.handles ==> Kept(g)
    ensures Coherent(mem', s)
  {
    forall g | g in s.handles && !g.deleted
      ensures Agrees(mem', g)
    {
      assert old(Agrees(mem, g));
    }
  }

  /** Completing the fresh handle x over an unowned id of a grown memory keeps the registry coherent. */
  twostate lemma Admitted(new mem: Foreign.Memory, new mem': Foreign.Memory, new s: Snapshot, new x: Tensor)
    requires old(allocated(s)) && old(Coherent(mem, s)) && Foreign.Sound(mem') && Grown(mem, mem')
    requires x !in s.handles && !x.deleted && x.ptr !in s.owner && Agrees(mem', x)
    requires forall g :: g in s.handles ==> Kept(g)
    ensures Coherent(mem', Admit(s, x, x.ptr))
  {
    Stepped(mem, mem', s);
    Enrolled(mem', s, x);
  }

  /** A live handle agreeing with mem over an unowned id joins a coherent registry coherently. */
  lemma Enrolled(mem: Foreign.Memory, s: Snapshot, x: Tensor)
    requires Coherent(mem, s) && x !in s.handles && !x.deleted && x.ptr !in s.owner && Agrees(mem, x)
    ensures Coherent(mem, Admit(s, x, x.ptr))
  {
    AppendDistinct(s.scoped, x);
  }

  /** Retiring the live handle x, its id left in place, drops its owner entry and its count. */
  twostate lemma Retired(new mem: Foreign.Memory, new s: Snapshot, new x: Tensor)
    requires old(allocated(s)) && old(allocated(x)) && old(Coherent(mem, s)) && x in s.handles && !old(x.deleted) && x.deleted && x.ptr == old(x.ptr)
    requires forall g :: g in s.handles && g != x ==> Kept(g)
    ensures Coherent(mem, Dropped(s, x.ptr))
  {
    assert x.ptr in s.owner && s.owner[x.ptr] == x;
    assert (s.owner - {x.ptr}).Keys == s.owner.Keys - {x.ptr};
    forall h | h in s.handles && !h.deleted
      ensures h.ptr in s.owner && s.owner[h.ptr] == h && Agrees(mem, h)
    {
      assert old(h.ptr in s.owner && s.owner[h.ptr] == h && Agrees(mem, h));
    }
  }

  /** Objects no live handle owns may go: every live handle keeps its object. */
  twostate lemma Released(new mem: Foreign.Memory, new mem': Foreign.Memory, new s: Snapshot, new gone: set<nat>)
    requires old(allocated(s)) && old(Coherent(mem, s)) && Foreign.Sound(mem')
    requires mem'.objects == mem.objects - gone && gone !! s.owner.Keys
    requires forall g :: g in s.handles ==> Kept(g)
    ensures Coherent(mem', s)
  {
    forall g | g in s.handles && !g.deleted
      ensures Agrees(mem', g)
    {
      assert old(Agrees(mem, g));
      assert g.ptr in s.owner;
    }
  }

  /** Emptying the arena keeps the registry coherent. */
  lemma Emptied(mem: Foreign.Memory, s: Snapshot)
    requires Coherent(mem, s)
    ensures Coherent(mem, s.(scoped := []))
  {
  }

  /** Distinct ids of live objects of mem: what one `batch_delete` may free. */
  predicate Batch(mem: Foreign.Memory, ids: seq<nat>) {
    (forall k :: 0 <= k < |ids| ==> ids[k] in mem.objects) &&
    (forall k, l :: 0 <= k < l < |ids| ==> ids[k] != ids[l])
  }

  /** A batch of ids that no live handle owns any more. */
  ghost predicate Orphans(mem: Foreign.Memory, owner: map<nat, Tensor>, ids: seq<nat>) {
    Batch(mem, ids) && forall k :: 0 <= k < |ids| ==> ids[k] !in owner
  }

  /** The ids of orphans are none of the owned ones. */
  lemma OrphansApart(mem: Foreign.Memory, owner: map<nat, Tensor>, ids: seq<nat>)
    requires Orphans(mem, owner, ids)
    ensures Ids(ids) !! owner.Keys
  {
    IdsMembers(ids);
  }

  /** The handles a scope captures from a coherent registry's arena are distinct live handles owned under the ids they hold. */
  lemma CapturedOwned(mem: Foreign.Memory, s: Snapshot, result: Option<Tensor>)
    requires Coherent(mem, s)
    ensures var v := Captured(s.scoped, result);
            Distinct(v) && forall k :: 0 <= k < |v| ==> Ptrs(v)[k] in s.owner && s.owner[Ptrs(v)[k]] == v[k]
  {
    CapturedDistinct(s.scoped, result);
    var v := Captured(s.scoped, result);
    forall k | 0 <= k < |v|
      ensures Ptrs(v)[k] in s.owner && s.owner[Ptrs(v)[k]] == v[k]
    {
      assert v[k] in Elems(v);
    }
  }

  /**
   * Retiring distinct live handles v, owned under ids, keeps the registry coherent: the owner
   * map loses exactly their ids and the counter one per handle, and the ids are distinct
   * objects of the memory that nobody owns any more.
   */
  twostate lemma Tombstoned(new mem: Foreign.Memory, new s: Snapshot, new v: seq<Tensor>, new ids: seq<nat>)
    requires old(allocated(s)) && old(Coherent(mem, s)) && Distinct(v) && |ids| == |v|
    requires forall k :: 0 <= k < |v| ==> ids[k] in s.owner && s.owner[ids[k]] == v[k]
    requires forall g :: g in Elems(v) ==> Buried(g)
    requires forall g :: g in s.handles && g !in Elems(v) ==> Kept(g)
    ensures var s' := s.(count := s.count - |ids|, owner := s.owner - Ids(ids));
            Coherent(mem, s') && Orphans(mem, s'.owner, ids)
  {
    OwnedIdsDistinct(v, ids, s.owner);
    IdsMembers(ids);
    MinusCount(s.owner, ids);
    TombstonedOwners(s, v, ids);
    TombstonedLive(mem, s, v, ids);
  }

  /** The owners left after Tombstoned's retirement are live handles holding their ids. */
  twostate lemma TombstonedOwners(new s: Snapshot, new v: seq<Tensor>, new ids: seq<nat>)
    requires old(allocated(s)) && old(Tracked(s)) && |ids| == |v|
    requires forall k :: 0 <= k < |v| ==> ids[k] in s.owner && s.owner[ids[k]] == v[k]
    requires forall g :: g in s.handles && g !in Elems(v) ==> Kept(g)
    ensures var owner := s.owner - Ids(ids);
            forall p :: p in owner ==> owner[p] in s.handles && owner[p].ptr == p && !owner[p].deleted
  {
    IdsMembers(ids);
    var owner := s.owner - Ids(ids);
    forall p | p in owner
      ensures owner[p] in s.handles && owner[p].ptr == p && !owner[p].deleted
    {
      var h := s.owner[p];
      assert forall k :: 0 <= k < |ids| ==> ids[k] != p;
      assert h !in Elems(v);
    }
  }

  /** The handles still live after Tombstoned's retirement keep their owner entries and agree with their objects. */
  twostate lemma TombstonedLive(new mem: Foreign.Memory, new s: Snapshot, new v: seq<Tensor>, new ids: seq<nat>)
    requires old(allocated(s)) && old(Coherent(mem, s)) && |ids| == |v|
    requires forall k :: 0 <= k < |v| ==> ids[k] in s.owner && s.owner[ids[k]] == v[k]
    requires forall g :: g in Elems(v) ==> Buried(g)
    requires forall g :: g in s.handles && g !in Elems(v) ==> Kept(g)
    ensures var owner := s.owner - Ids(ids);
            forall h :: h in s.handles && !h.deleted ==> h.ptr in owner && owner[h.ptr] == h && Agrees(mem, h)
  {
    IdsMembers(ids);
    var owner := s.owner - Ids(ids);
    forall h | h in s.handles && !h.deleted
      ensures h.ptr in owner && owner[h.ptr] == h && Agrees(mem, h)
    {
      assert h !in Elems(v);
      assert old(h.ptr in s.owner && s.owner[h.ptr] == h && Agrees(mem, h));
      assert forall k :: 0 <= k < |ids| ==> ids[k] != h.ptr;
    }
  }

  /** What an arithmetic method is given: a number, an array of numbers, or another tensor. */
  datatype InputData = Scalar(value: int) | Values(values: seq<int>) | Operand(tensor: Tensor)

  /** The numbers a temporary receives: a scalar becomes a one-element array. */
  function Supplied(input: InputData): (v: seq<int>)
    requires !input.Operand?
    ensures input.Scalar? ==> v == [input.value]
  {
    if input.Scalar? then [input.value] else input.values
  }

  /**
   * InputArgs: where the module reads an operand, and how many elements. `isOwned` is set when
   * the operand is a tensor: its buffer is borrowed, not owned by the arguments.
   */
  datatype InputArgs = InputArgs(isOwned: bool, size: nat, ptr: nat)
  {
    /** `free`: a borrowed buffer is left alone; a temporary is released, and nothing else. */
    method Free(mem: Foreign.Memory) returns (mem': Foreign.Memory)
      requires Foreign.Sound(mem) && (!isOwned ==> ptr in mem.heap)
      ensures Foreign.Sound(mem')
      ensures isOwned ==> mem' == mem
      ensures !isOwned ==> mem' == mem.(heap := mem.heap - {ptr})
    {
      if isOwned {
        return mem;
      }
      mem' := Foreign.Free(mem, ptr);
    }
  }

  /**
   * `new InputArgs(tensor, input)`: a tensor operand lends its data pointer and rows * cols;
   * a number or an array is copied into a temporary of its length.
   */
  method NewInputArgs(mem: Foreign.Memory, input: InputData) returns (mem': Foreign.Memory, args: InputArgs)
    requires Foreign.Sound(mem)
    ensures Foreign.Sound(mem')
    ensures input.Operand? ==> mem' == mem && args == InputArgs(true, input.tensor.rows * input.tensor.cols, input.tensor.dataPtr)
    ensures !input.Operand? ==>
              !args.isOwned && args.size == |Supplied(input)| && Foreign.Unused(mem, args.ptr) &&
              mem'.objects == mem.objects && mem'.buffers == mem.buffers &&
              mem'.heap == mem.heap[args.ptr := Supplied(input)]
  {
    if input.Operand? {
      return mem, InputArgs(true, input.tensor.rows * input.tensor.cols, input.tensor.dataPtr);
    }
    var values := Supplied(input);
    var a;
    mem', a := Foreign.Malloc(mem, |values|);
    ghost var junk := mem'.heap[a];
    mem' := Foreign.Store(mem', a, values);
    assert values + junk[|values|..] == values;
    args := InputArgs(false, |values|, a);
  }

  /** The operand the module reads through InputArgs made from input: the temporary's numbers, or the lent buffer. */
  function OperandOf(mem: Foreign.Memory, input: InputData): seq<int>
    requires input.Operand? ==> input.tensor.dataPtr in mem.buffers
  {
    if input.Operand? then mem.buffers[input.tensor.dataPtr] else Supplied(input)
  }

  /** A borrowed operand over a live handle that agrees with mem is read whole: its own data. */
  lemma BorrowedWhole(mem: Foreign.Memory, t: Tensor)
    requires Foreign.Sound(mem) && Agrees(mem, t)
    ensures t.dataPtr in mem.buffers && |mem.buffers[t.dataPtr]| == t.rows * t.cols
    ensures Foreign.Block(mem, t.dataPtr)[..t.rows * t.cols] == mem.buffers[t.dataPtr] == Foreign.TensorOf(mem, t.ptr).data
  {
  }

  /** `norm`'s ord: the keys of NORM_ORD. */
  datatype NormOrd = L2 | L1 | MaxNorm

  /** `ord ? NORM_ORD[ord] : 0`: L2 is 0, L1 is 1, max is 2, and a missing ord is L2. */
  function OrdCode(ord: Option<NormOrd>): (code: int)
    ensures 0 <= code <= 2 && (code == 0 <==> ord.None? || ord == Some(L2))
  {
    match ord
    case None => 0
    case Some(L2) => 0
    case Some(L1) => 1
    case Some(MaxNorm) => 2
  }

  /** An optional axis: null and undefined both mean -1. */
  function AxisOf(axis: Option<int>): int {
    if axis.None? then -1 else axis.value
  }

  /**
   * What `pad` is given: a flat array of amounts, or an array whose first entry is the row
   * pair, followed by a column pair (None when the second entry is missing or not an array).
   */
  datatype Padding = Amounts(amounts: seq<nat>) | Pairs(rowPair: seq<nat>, colPair: Option<seq<nat>>)

  /** The amounts before and after the rows and the columns: a 1-d tensor pads its columns only. */
  datatype PadAmounts = PadAmounts(rb: nat, ra: nat, cb: nat, ca: nat)

  /**
   * The host side of `pad`: a pair of pairs is refused on a 1-d tensor, and on a 2-d tensor
   * a flat array fails when its first entry is destructured; missing amounts are 0.
   */
  function PadArgs(is1d: bool, p: Padding): (r: Result<PadAmounts, HostError>)
    ensures r.Err? <==> (is1d == p.Pairs?)
    ensures r.Ok? && is1d ==> r.value.rb == 0 && r.value.ra == 0
  {
    if is1d then
      if p.Pairs? then Err(PadRowsOn1d) else Ok(PadAmounts(0, 0, Dim(p.amounts, 0), Dim(p.amounts, 1)))
    else if p.Amounts? then Err(PadNotIterable)
    else
      var cs := if p.colPair.Some? then p.colPair.value else [];
      Ok(PadAmounts(Dim(p.rowPair, 0), Dim(p.rowPair, 1), Dim(cs, 0), Dim(cs, 1)))
  }

  /** A JavaScript value `array` can return. */
  datatype JsValue = Undefined | Number(n: int) | List(items: seq<int>) | Rows(rows: seq<seq<int>>)

  /** The rows of a rows x cols buffer, each cols long, in order. */
  function Nest(data: seq<int>, rows: nat, cols: nat): (rs: seq<seq<int>>)
    requires |data| == rows * cols
    ensures |rs| == rows && forall r :: 0 <= r < rows ==> |rs[r]| == cols
    decreases rows
  {
    if rows == 0 then []
    else
      var n := (rows - 1) * cols;
      assert n + cols == |data|;
      Nest(data[..n], rows - 1, cols) + [data[n..]]
  }

  /** Entry c of row r of a nested buffer is element r * cols + c. */
  lemma {:induction false} NestAt(data: seq<int>, rows: nat, cols: nat, r: nat, c: nat)
    requires |data| == rows * cols && r < rows && c < cols
    ensures r * cols + c < |data| && Nest(data, rows, cols)[r][c] == data[r * cols + c]
    decreases rows
  {
    var n := (rows - 1) * cols;
    RowMajor.FlatBound(r, c, rows, cols);
    RowMajor.MulSucc(rows - 1, cols);
    var rs := Nest(data, rows, cols);
    assert rs == Nest(data[..n], rows - 1, cols) + [data[n..]];
    if r < rows - 1 {
      RowMajor.FlatBound(r, c, rows - 1, cols);
      NestAt(data[..n], rows - 1, cols, r, c);
      assert rs[r] == Nest(data[..n], rows - 1, cols)[r];
    } else {
      assert rs[r] == data[n..] && r * cols == n;
    }
  }

  /** Joining the nested rows gives the buffer back: `new Tensor(t.array())` sees t's elements. */
  lemma {:induction false} NestJoined(data: seq<int>, rows: nat, cols: nat)
    requires |data| == rows * cols
    ensures Joined(Nest(data, rows, cols)) == data
    decreases rows
  {
    if rows > 0 {
      var n := (rows - 1) * cols;
      var rs := Nest(data, rows, cols);
      NestJoined(data[..n], rows - 1, cols);
      assert rs[..rows - 1] == Nest(data[..n], rows - 1, cols);
      assert data == data[..n] + data[n..];
    }
  }

  /**
   * What `array` returns for a handle's buffer: a 1-d tensor with keepdims false gives its
   * first element; a 2-d one with keepdims false gives the flat list; otherwise a 1-d tensor
   * gives the flat list and a 2-d one its rows.
   */
  function ArrayOf(data: seq<int>, rows: nat, cols: nat, is1d: bool, keepdims: Option<bool>): JsValue
    requires |data| == rows * cols
  {
    if is1d then
      if keepdims == Some(false) then (if |data| > 0 then Number(data[0]) else Undefined)
      else List(data)
    else if keepdims == Some(false) then List(data)
    else Rows(Nest(data, rows, cols))
  }

  /**
   * A 2-d handle's rows, passed back to the constructor without a shape, rebuild the same
   * shape and the same elements.
   */
  lemma ArrayRoundTrip(data: seq<int>, rows: nat, cols: nat, keepdims: Option<bool>)
    requires |data| == rows * cols && rows > 0 && keepdims != Some(false)
    ensures var v := ArrayOf(data, rows, cols, false, keepdims);
            v.Rows? && InferredShape(Nested(v.rows), NoShape) == Ok(Core.Shape(rows, cols, false)) &&
            Elements(Nested(v.rows)) == data
  {
    NestJoined(data, rows, cols);
  }

  /** The ids `stack` copies into its block, in order. */
  function Pointers(ms: seq<Tensor>): (ids: seq<int>)
    reads ms
    ensures |ids| == |ms| && forall k :: 0 <= k < |ms| ==> ids[k] == ms[k].ptr
  {
    seq(|ms|, k requires 0 <= k < |ms| reads ms => ms[k].ptr as int)
  }

  /** Live handles name live objects, and the first one's shape is its object's. */
  lemma Stackable(mem: Foreign.Memory, s: Snapshot, ms: seq<Tensor>)
    requires Coherent(mem, s) && forall k :: 0 <= k < |ms| ==> ms[k] in s.handles && !ms[k].deleted
    ensures Foreign.AllLive(Pointers(ms), mem.objects)
    ensures |ms| > 0 ==> Agrees(mem, ms[0])
  {
    var ids := Pointers(ms);
    forall k | 0 <= k < |ids|
      ensures ids[k] >= 0 && ids[k] as nat in mem.objects
    {
      assert Agrees(mem, ms[k]);
    }
  }

  /** For i < cols, the store at i * cols + i is inside the buffer and moves eye from stage i to stage i + 1. */
  lemma {:induction false} EyeGrows(t: Core.Tensor, i: nat)
    requires i < t.cols && i * t.cols + i < t.rows * t.cols
    ensures Creation.EyeStage(t, i + 1) == Creation.EyeStage(t, i)[i * t.cols + i := 1]
  {
    if t.rows <= i {
      RowMajor.MulLe(t.rows, i, t.cols);
    }
    Core.BuildUpdate(t.rows, t.cols, t.is1d, (r: nat, c: nat) => if r == c && c < i then 1 else 0,
                     (r: nat, c: nat) => if r == c && c < i + 1 then 1 else 0, i, i);
  }

  /** For a column i at or past the last row the store falls outside the buffer, and the stage does not change. */
  lemma {:induction false} EyeBeyond(t: Core.Tensor, i: nat)
    requires i < t.cols && i * t.cols + i >= t.rows * t.cols
    ensures Creation.EyeStage(t, i + 1) == Creation.EyeStage(t, i)
  {
    if i < t.rows {
      RowMajor.FlatBound(i, i, t.rows, t.cols);
    }
    Core.BuildSame(t.rows, t.cols, t.is1d, (r: nat, c: nat) => if r == c && c < i + 1 then 1 else 0,
                   (r: nat, c: nat) => if r == c && c < i then 1 else 0);
  }

  /** A `Float32Array` over the module's memory: where it starts and how many elements it covers. */
  datatype View = View(offset: nat, length: nat)

  /** The bounding box `bounds` returns. */
  datatype Box = Box(xmin: int, ymin: int, xmax: int, ymax: int)
}
