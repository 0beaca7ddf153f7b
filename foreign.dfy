/**
 * The compiled module as the host sees it: the `extern "C"` entry points of core.cpp,
 * transformations.cpp, slicejoin.cpp, creation.cpp, matrices.cpp, arithmetic.cpp and
 * basicmath.cpp over one linear memory. A `Tensor*` is an object id; the
 * `shared_ptr<vector<Real>>` it holds is a buffer address that several objects may share;
 * `malloc`/`free` manage scratch blocks of 4-byte slots.
 */
module Foreign {
  import opened Wrappers
  import RowMajor
  import opened Core
  import Transformations
  import SliceJoin
  import Creation
  import Matrices
  import Arithmetic
  import BasicMath
  import Reduction

  /** 4-byte elements that fit in the 4 GiB address space of a 32-bit module. */
  const MAX_ELEMS: nat := 0x4000_0000

  /** A live `Tensor` object: its shape fields and the buffer its data pointer shares. */
  datatype Obj = Obj(rows: nat, cols: nat, is1d: bool, buf: nat)

  /** Why an entry point threw instead of returning a new object. */
  datatype ForeignError =
    | ReshapeFailed(reshape: Transformations.ReshapeError)
    | ArithFailed(arith: Arithmetic.ArithError)
    | MatrixFailed(matrix: Matrices.MatrixError)
    | AxisUnsupported(axis: int)

  /** Dimensions that fit the shape wire's int slots and data that fits in memory. */
  predicate Shaped(rows: nat, cols: nat, data: seq<int>) {
    |data| == rows * cols && rows < TWO_31 && cols < TWO_31 && |data| < MAX_ELEMS
  }

  /** Some object still holds buffer b: its reference count is not zero. */
  ghost predicate Referenced(objs: map<nat, Obj>, b: nat) {
    exists id :: id in objs && objs[id].buf == b
  }

  /** The buffers of bufs that some object in objs still holds; the others were released. */
  ghost function Retained(bufs: map<nat, seq<int>>, objs: map<nat, Obj>): map<nat, seq<int>> {
    map b | b in bufs && Referenced(objs, b) :: bufs[b]
  }

  /** The objects `gone` were deleted, each buffer going with the last object holding it; the scratch blocks are as they were. */
  ghost predicate Freed(mem: Memory, mem': Memory, gone: set<nat>) {
    mem'.objects == mem.objects - gone && mem'.buffers == Retained(mem.buffers, mem'.objects) && mem'.heap == mem.heap
  }

  /** Releasing against a smaller object table after a larger one is releasing against it once. */
  lemma RetainedTwice(bufs: map<nat, seq<int>>, big: map<nat, Obj>, small: map<nat, Obj>)
    requires forall id :: id in small ==> id in big && big[id] == small[id]
    ensures Retained(Retained(bufs, big), small) == Retained(bufs, small)
  {
    forall b | b in bufs && Referenced(small, b)
      ensures Referenced(big, b)
    {
      var id :| id in small && small[id].buf == b;
      assert id in big && big[id].buf == b;
    }
  }

  /** When every buffer is referenced, releasing keeps them all. */
  lemma RetainedAll(bufs: map<nat, seq<int>>, objs: map<nat, Obj>)
    requires forall b :: b in bufs ==> Referenced(objs, b)
    ensures Retained(bufs, objs) == bufs
  {
  }

  /** The ids a tombstone list names, without its null entries. */
  function NonNull(ids: seq<int>): set<nat> {
    set k | 0 <= k < |ids| && ids[k] > 0 :: ids[k] as nat
  }

  /** Every entry is null or live, and each live one appears once: deleting them is not a double free. */
  predicate Deletable(ids: seq<int>, objs: map<nat, Obj>) {
    (forall k :: 0 <= k < |ids| ==> ids[k] == 0 || (ids[k] > 0 && ids[k] as nat in objs)) &&
    (forall k, l :: 0 <= k < l < |ids| && ids[k] != 0 ==> ids[k] != ids[l])
  }

  /** One more entry of the list adds its id, when it is not null. */
  lemma NonNullStep(ids: seq<int>, i: nat)
    requires i < |ids|
    ensures NonNull(ids[..i + 1]) == NonNull(ids[..i]) + (if ids[i] > 0 then {ids[i] as nat} else {})
  {
    assert forall k :: 0 <= k < i ==> ids[..i + 1][k] == ids[..i][k];
    assert ids[..i + 1][i] == ids[i];
  }

  /** A non-null entry of a deletable list is live and was not named before. */
  lemma NotYetDeleted(ids: seq<int>, i: nat, objs: map<nat, Obj>)
    requires Deletable(ids, objs) && i < |ids| && ids[i] != 0
    ensures ids[i] > 0 && ids[i] as nat in objs && ids[i] as nat !in NonNull(ids[..i])
  {
  }

  /** Every entry is the address of a live object. */
  predicate AllLive(ids: seq<int>, objs: map<nat, Obj>) {
    forall k :: 0 <= k < |ids| ==> ids[k] >= 0 && ids[k] as nat in objs
  }

  /**
   * The module's linear memory: the live objects, by address; the data vectors, by the
   * address `tensor_get_data_ptr` reports; the blocks obtained with `_malloc` and not yet
   * freed; and the next address to hand out (addresses are never reused). Every entry point
   * takes the memory before the call and returns the memory after it.
   */
  datatype Memory = Memory(objects: map<nat, Obj>, buffers: map<nat, seq<int>>,
                           heap: map<nat, seq<int>>, next: nat)

  /**
   * Objects, buffers and blocks occupy distinct addresses below next; every object's buffer
   * exists and fits its shape; every buffer is still held by some object.
   */
  ghost predicate Sound(mem: Memory) {
    0 < mem.next &&
    (forall a {:trigger a in mem.objects} :: a in mem.objects ==> 0 < a < mem.next && a !in mem.buffers && a !in mem.heap) &&
    (forall a {:trigger a in mem.buffers} :: a in mem.buffers ==> 0 < a < mem.next && a !in mem.heap) &&
    (forall a {:trigger a in mem.heap} :: a in mem.heap ==> 0 < a < mem.next) &&
    (forall id {:trigger mem.objects[id]} :: id in mem.objects ==>
       mem.objects[id].buf in mem.buffers &&
       Shaped(mem.objects[id].rows, mem.objects[id].cols, mem.buffers[mem.objects[id].buf])) &&
    (forall b {:trigger b in mem.buffers} :: b in mem.buffers ==> Referenced(mem.objects, b))
  }

  /** An address nothing occupies. */
  ghost predicate Unused(mem: Memory, a: nat) {
    a != 0 && a !in mem.objects && a !in mem.buffers && a !in mem.heap
  }

  /** The memory of a freshly instantiated module: nothing allocated yet. */
  function Instantiate(): (mem: Memory)
    ensures Sound(mem) && mem.objects == map[] && mem.buffers == map[] && mem.heap == map[]
  {
    Memory(map[], map[], map[], 1)
  }

  /** The record object id stands for. */
  function TensorOf(mem: Memory, id: nat): (t: Tensor)
    requires id in mem.objects && mem.objects[id].buf in mem.buffers
    ensures Sound(mem) ==> WellFormed(t) && |t.data| < MAX_ELEMS && t.rows < TWO_31 && t.cols < TWO_31
    ensures t.rows == mem.objects[id].rows && t.cols == mem.objects[id].cols && t.is1d == mem.objects[id].is1d
    ensures t.data == mem.buffers[mem.objects[id].buf]
  {
    var o := mem.objects[id];
    Tensor(o.rows, o.cols, o.is1d, mem.buffers[o.buf])
  }

  /** `tensor_get_data_ptr`: the address of the object's data, rows * cols elements long. */
  function DataPtr(mem: Memory, id: nat): (b: nat)
    requires id in mem.objects
    ensures Sound(mem) ==> b in mem.buffers && |mem.buffers[b]| == mem.objects[id].rows * mem.objects[id].cols
  {
    mem.objects[id].buf
  }

  /** The memory at address a: a data buffer or a malloc'd block. */
  function Block(mem: Memory, a: nat): seq<int>
    requires a in mem.buffers || a in mem.heap
  {
    if a in mem.buffers then mem.buffers[a] else mem.heap[a]
  }

  /** Object id is new in mem' and no other object changed. */
  ghost predicate Added(mem: Memory, mem': Memory, id: nat) {
    id in mem'.objects && Unused(mem, id) && mem'.objects == mem.objects[id := mem'.objects[id]]
  }

  /** Object id is new in mem', over a new buffer, and no other object or buffer changed. */
  ghost predicate NewTensor(mem: Memory, mem': Memory, id: nat) {
    Added(mem, mem', id) && mem'.objects[id].buf in mem'.buffers && Unused(mem, mem'.objects[id].buf) &&
    mem'.buffers == mem.buffers[mem'.objects[id].buf := mem'.buffers[mem'.objects[id].buf]]
  }

  /** Object id is new in mem' and shares the buffer of src; no buffer changed. */
  ghost predicate NewAlias(mem: Memory, mem': Memory, id: nat, src: nat) {
    Added(mem, mem', id) && src in mem.objects &&
    mem'.objects[id].buf == mem.objects[src].buf && mem'.buffers == mem.buffers
  }

  /** A fresh object over a fresh buffer holding data: a kernel's result moved into the heap. */
  method Emit(mem: Memory, rows: nat, cols: nat, is1d: bool, data: seq<int>) returns (mem': Memory, id: nat)
    requires Sound(mem) && Shaped(rows, cols, data)
    ensures Sound(mem') && NewTensor(mem, mem', id) && mem'.heap == mem.heap
    ensures TensorOf(mem', id) == Tensor(rows, cols, is1d, data)
  {
    id := mem.next;
    var b := mem.next + 1;
    mem' := Memory(mem.objects[id := Obj(rows, cols, is1d, b)], mem.buffers[b := data], mem.heap, mem.next + 2);
    assert mem'.objects[id].buf == b;
    forall c | c in mem'.buffers
      ensures Referenced(mem'.objects, c)
    {
      if c != b {
        var o :| o in mem.objects && mem.objects[o].buf == c;
        assert o in mem'.objects && mem'.objects[o].buf == c;
      }
    }
  }

  /** A fresh object sharing an existing buffer: the `shared_ptr` constructor. */
  method Alias(mem: Memory, rows: nat, cols: nat, is1d: bool, buf: nat) returns (mem': Memory, id: nat)
    requires Sound(mem) && buf in mem.buffers && Shaped(rows, cols, mem.buffers[buf])
    ensures Sound(mem') && id in mem'.objects && Unused(mem, id) && mem'.objects == mem.objects[id := Obj(rows, cols, is1d, buf)]
    ensures mem'.buffers == mem.buffers && mem'.heap == mem.heap
  {
    id := mem.next;
    mem' := mem.(objects := mem.objects[id := Obj(rows, cols, is1d, buf)], next := mem.next + 1);
    forall c | c in mem'.buffers
      ensures Referenced(mem'.objects, c)
    {
      var o :| o in mem.objects && mem.objects[o].buf == c;
      assert o in mem'.objects && mem'.objects[o].buf == c;
    }
  }

  /** `update_shape_wire`: slots 0..2 of the block receive the shape. */
  method WriteWire(mem: Memory, wire: nat, s: Shape) returns (mem': Memory)
    requires Sound(mem) && wire in mem.heap && |mem.heap[wire]| >= 3
    ensures Sound(mem') && mem' == mem.(heap := mem.heap[wire := WriteShapeWire(s, mem.heap[wire])])
  {
    mem' := mem.(heap := mem.heap[wire := WriteShapeWire(s, mem.heap[wire])]);
  }

  /**
   * `_malloc(4 * size)`: a new block of size slots at an address nothing occupies. Emscripten's
   * allocator does not clear memory, so nothing is promised about what the slots hold.
   */
  method Malloc(mem: Memory, size: nat) returns (mem': Memory, a: nat)
    requires Sound(mem)
    ensures Sound(mem') && Unused(mem, a) && a in mem'.heap && |mem'.heap[a]| == size
    ensures mem'.heap == mem.heap[a := mem'.heap[a]]
    ensures mem'.objects == mem.objects && mem'.buffers == mem.buffers
  {
    a := mem.next;
    mem' := mem.(heap := mem.heap[a := seq(size, _ => 0)], next := mem.next + 1);
  }

  /** `_free`: only a block obtained from `_malloc` and not yet freed may be released. */
  method Free(mem: Memory, a: nat) returns (mem': Memory)
    requires Sound(mem) && a in mem.heap
    ensures Sound(mem') && mem' == mem.(heap := mem.heap - {a})
  {
    mem' := mem.(heap := mem.heap - {a});
  }

  /** `HEAPU32.set` / `HEAPF32.set` into a malloc'd block: the first |values| slots are overwritten. */
  method Store(mem: Memory, a: nat, values: seq<int>) returns (mem': Memory)
    requires Sound(mem) && a in mem.heap && |values| <= |mem.heap[a]|
    ensures Sound(mem') && mem' == mem.(heap := mem.heap[a := values + mem.heap[a][|values|..]])
  {
    mem' := mem.(heap := mem.heap[a := values + mem.heap[a][|values|..]]);
  }

  /** `HEAPF32.set` at a data pointer: the buffer's elements are replaced. */
  method StoreData(mem: Memory, b: nat, values: seq<int>) returns (mem': Memory)
    requires Sound(mem) && b in mem.buffers && |values| == |mem.buffers[b]|
    ensures Sound(mem') && mem' == mem.(buffers := mem.buffers[b := values])
  {
    mem' := mem.(buffers := mem.buffers[b := values]);
    forall id | id in mem'.objects
      ensures Shaped(mem'.objects[id].rows, mem'.objects[id].cols, mem'.buffers[mem'.objects[id].buf])
    {
    }
  }

  /** `tensor_create`: a rows x cols object over a fresh buffer of zeros. */
  method Create(mem: Memory, rows: nat, cols: nat, is1d: bool) returns (mem': Memory, id: nat)
    requires Sound(mem) && rows < TWO_31 && cols < TWO_31 && rows * cols < MAX_ELEMS
    ensures Sound(mem') && NewTensor(mem, mem', id) && mem'.heap == mem.heap
    ensures TensorOf(mem', id) == Zeros(rows, cols, is1d)
  {
    var z := Zeros(rows, cols, is1d);
    mem', id := Emit(mem, rows, cols, is1d, z.data);
  }

  /**
   * `tensor_delete`: the object goes; its buffer goes with it only when no other object
   * shares it. Deleting a dead id (a double free) is excluded by the precondition.
   */
  method Delete(mem: Memory, id: nat) returns (mem': Memory)
    requires Sound(mem) && id in mem.objects
    ensures Sound(mem') && mem'.objects == mem.objects - {id}
    ensures mem'.buffers == Retained(mem.buffers, mem'.objects) && mem'.heap == mem.heap
  {
    var b := mem.objects[id].buf;
    mem' := mem.(objects := mem.objects - {id});
    if !(exists o :: o in mem'.objects.Keys && mem'.objects[o].buf == b) {
      mem' := mem'.(buffers := mem'.buffers - {b});
    }
    forall c | c in mem.buffers && c != b
      ensures Referenced(mem'.objects, c)
    {
      var o :| o in mem.objects && mem.objects[o].buf == c;
      assert o != id && o in mem'.objects;
    }
    assert mem'.buffers == Retained(mem.buffers, mem'.objects);
  }

  /**
   * `tensor_batch_delete`: every non-null id among the first size entries of the block is
   * deleted once; null entries are skipped.
   */
  method BatchDelete(mem: Memory, instances: nat, size: nat) returns (mem': Memory)
    requires Sound(mem) && instances in mem.heap && size <= |mem.heap[instances]|
    requires Deletable(mem.heap[instances][..size], mem.objects)
    ensures Sound(mem') && mem'.objects == mem.objects - NonNull(mem.heap[instances][..size])
    ensures mem'.buffers == Retained(mem.buffers, mem'.objects) && mem'.heap == mem.heap
  {
    var ids := mem.heap[instances][..size];
    RetainedAll(mem.buffers, mem.objects);
    mem' := mem;
    for i := 0 to size
      invariant Sound(mem') && mem'.heap == mem.heap
      invariant mem'.objects == mem.objects - NonNull(ids[..i])
      invariant mem'.buffers == Retained(mem.buffers, mem'.objects)
    {
      NonNullStep(ids, i);
      if ids[i] != 0 {
        NotYetDeleted(ids, i, mem.objects);
        ghost var before := mem'.objects;
        mem' := Delete(mem', ids[i] as nat);
        RetainedTwice(mem.buffers, before, mem'.objects);
      }
    }
    assert ids[..size] == ids;
  }

  /** `tensor_get_shape`: the shape triple of the object into slots 0..2 of the block. */
  method GetShape(mem: Memory, id: nat, out: nat) returns (mem': Memory)
    requires Sound(mem) && id in mem.objects && out in mem.heap && |mem.heap[out]| >= 3
    ensures Sound(mem') && mem'.objects == mem.objects && mem'.buffers == mem.buffers
    ensures mem'.heap == mem.heap[out := WriteShapeWire(ShapeOf(TensorOf(mem, id)), mem.heap[out])]
  {
    var o := mem.objects[id];
    mem' := WriteWire(mem, out, Shape(o.rows, o.cols, o.is1d));
  }

  /**
   * `tensor_get_bounds`: the box of `get_bounds` as written, stored as xmin, ymin, xmax, ymax.
   * All four are seeded with the first element, so the y range always takes in that x too.
   */
  method GetBounds(mem: Memory, id: nat, out: nat) returns (mem': Memory)
    requires Sound(mem) && id in mem.objects && |TensorOf(mem, id).data| > 0 && out in mem.heap && |mem.heap[out]| >= 4
    ensures Sound(mem') && mem'.objects == mem.objects && mem'.buffers == mem.buffers
    ensures out in mem'.heap && |mem'.heap[out]| == |mem.heap[out]| && mem'.heap == mem.heap[out := mem'.heap[out]]
    ensures var b := mem'.heap[out]; AsWrittenBox(TensorOf(mem, id), Bounds(b[0], b[1], b[2], b[3]))
  {
    var t := TensorOf(mem, id);
    var b := Core.GetBoundsAsWritten(t);
    AsWrittenBoxHolds(t);
    mem' := Store(mem, out, [b.xmin, b.ymin, b.xmax, b.ymax]);
  }

  /** `tensor_clone`: a second object over the same buffer and shape. */
  method Clone(mem: Memory, id: nat) returns (mem': Memory, nid: nat)
    requires Sound(mem) && id in mem.objects
    ensures Sound(mem') && NewAlias(mem, mem', nid, id) && mem'.heap == mem.heap
    ensures TensorOf(mem', nid) == TensorOf(mem, id)
  {
    var o := mem.objects[id];
    mem', nid := Alias(mem, o.rows, o.cols, o.is1d, o.buf);
  }

  /** `tensor_flatten` made consistent with the host: 1 x rows*cols, 1-d, same buffer. */
  method Flatten(mem: Memory, id: nat) returns (mem': Memory, nid: nat)
    requires Sound(mem) && id in mem.objects
    ensures Sound(mem') && NewAlias(mem, mem', nid, id) && mem'.heap == mem.heap
    ensures var t := TensorOf(mem, id);
            TensorOf(mem', nid) == Tensor(1, t.rows * t.cols, true, t.data)
  {
    var o := mem.objects[id];
    mem', nid := Alias(mem, 1, o.rows * o.cols, true, o.buf);
  }

  /**
   * `tensor_reshape`: on success a new object over the same buffer with the inferred shape,
   * and the shape in the wire; on failure nothing changes (the wire keeps its old contents).
   */
  method Reshape(mem: Memory, id: nat, newRows: int, newCols: int, wire: nat) returns (mem': Memory, r: Result<nat, ForeignError>)
    requires Sound(mem) && id in mem.objects && Transformations.IsInt(newRows) && Transformations.IsInt(newCols)
    requires wire in mem.heap && |mem.heap[wire]| >= 3
    ensures Sound(mem')
    ensures var expected := Transformations.Reshape(TensorOf(mem, id), newRows, newCols);
            if expected.Err? then r == Err(ReshapeFailed(expected.error)) && mem' == mem
            else r.Ok? && NewAlias(mem, mem', r.value, id) && TensorOf(mem', r.value) == expected.value &&
                 mem'.heap == mem.heap[wire := WriteShapeWire(ShapeOf(expected.value), mem.heap[wire])]
  {
    var t := TensorOf(mem, id);
    var res := Transformations.Reshape(t, newRows, newCols);
    if res.Err? {
      return mem, Err(ReshapeFailed(res.error));
    }
    var u := res.value;
    ReshapeFits(t, newRows, newCols);
    var m, nid := Alias(mem, u.rows, u.cols, u.is1d, mem.objects[id].buf);
    mem' := WriteWire(m, wire, ShapeOf(u));
    r := Ok(nid);
  }

  /** `tensor_pad`: a fresh padded object, its shape also sent through the wire. */
  method Pad(mem: Memory, id: nat, wire: nat, constant: int, rb: nat, ra: nat, cb: nat, ca: nat) returns (mem': Memory, nid: nat)
    requires Sound(mem) && id in mem.objects && wire in mem.heap && |mem.heap[wire]| >= 3
    requires var t := TensorOf(mem, id);
             t.rows + rb + ra < TWO_31 && t.cols + cb + ca < TWO_31 &&
             (t.rows + rb + ra) * (t.cols + cb + ca) < MAX_ELEMS
    ensures Sound(mem') && NewTensor(mem, mem', nid)
    ensures TensorOf(mem', nid) == Transformations.Padded(TensorOf(mem, id), constant, rb, ra, cb, ca)
    ensures mem'.heap == mem.heap[wire := WriteShapeWire(ShapeOf(TensorOf(mem', nid)), mem.heap[wire])]
  {
    var p := Transformations.Pad(TensorOf(mem, id), constant, rb, ra, cb, ca);
    var m;
    m, nid := Emit(mem, p.rows, p.cols, p.is1d, p.data);
    mem' := WriteWire(m, wire, ShapeOf(p));
  }

  /**
   * `tensor_add`, `tensor_sub`, `tensor_mul`: the operand is read from size slots at
   * address input (a data buffer when borrowed, a malloc'd block otherwise).
   */
  method Arith(mem: Memory, op: Arithmetic.Op, id: nat, input: nat, size: nat) returns (mem': Memory, r: Result<nat, ForeignError>)
    requires Sound(mem) && id in mem.objects && (input in mem.buffers || input in mem.heap) && size <= |Block(mem, input)|
    ensures Sound(mem') && mem'.heap == mem.heap
    ensures var expected := Arithmetic.Combined(op, TensorOf(mem, id), Block(mem, input)[..size]);
            if expected.Err? then r == Err(ArithFailed(expected.error)) && mem' == mem
            else r.Ok? && NewTensor(mem, mem', r.value) && TensorOf(mem', r.value) == expected.value
  {
    var t := TensorOf(mem, id);
    var res := Arithmetic.Arith(op, t, Block(mem, input)[..size]);
    if res.Err? {
      return mem, Err(ArithFailed(res.error));
    }
    var nid;
    mem', nid := Emit(mem, res.value.rows, res.value.cols, res.value.is1d, res.value.data);
    r := Ok(nid);
  }

  /**
   * `tensor_div` with the operand and its size in their own parameters: the same size
   * dispatch and error as add, the float quotients given as values.
   */
  method Div(mem: Memory, id: nat, input: nat, size: nat, values: seq<int>) returns (mem': Memory, r: Result<nat, ForeignError>)
    requires Sound(mem) && id in mem.objects && (input in mem.buffers || input in mem.heap) && size <= |Block(mem, input)|
    requires |values| == |TensorOf(mem, id).data|
    ensures Sound(mem') && mem'.heap == mem.heap
    ensures var expected := Arithmetic.Combined(Arithmetic.Plus, TensorOf(mem, id), Block(mem, input)[..size]);
            if expected.Err? then r == Err(ArithFailed(expected.error)) && mem' == mem
            else r.Ok? && NewTensor(mem, mem', r.value) && TensorOf(mem', r.value) == TensorOf(mem, id).(data := values)
  {
    var t := TensorOf(mem, id);
    var res := Arithmetic.Arith(Arithmetic.Plus, t, Block(mem, input)[..size]);
    if res.Err? {
      return mem, Err(ArithFailed(res.error));
    }
    var nid;
    mem', nid := Emit(mem, t.rows, t.cols, t.is1d, values);
    r := Ok(nid);
  }

  /**
   * `tensor_div` reached by the host's call as written, which passes three arguments to a
   * four-parameter entry point: `no_nan` receives the operand's address, the operand pointer
   * receives its size, and the missing size reads as 0. The dispatch then sees an operand of
   * no elements, so only a tensor without elements gets through, copied as it is.
   */
  method DivAsCalled(mem: Memory, id: nat, input: nat, size: nat) returns (mem': Memory, r: Result<nat, ForeignError>)
    requires Sound(mem) && id in mem.objects
    ensures Sound(mem') && mem'.heap == mem.heap
    ensures var t := TensorOf(mem, id);
            if t.rows > 0 && t.cols > 0 then r == Err(ArithFailed(Arithmetic.NotBroadcastable)) && mem' == mem
            else r.Ok? && NewTensor(mem, mem', r.value) && TensorOf(mem', r.value) == t
  {
    var t := TensorOf(mem, id);
    // input_size is the missing fourth argument: no element of the operand is read
    var res := Arithmetic.Arith(Arithmetic.Plus, t, []);
    if t.rows > 0 && t.cols > 0 {
      RowMajor.MulLe(1, t.rows, t.cols);
      assert res == Err(Arithmetic.NotBroadcastable);
      return mem, Err(ArithFailed(res.error));
    }
    assert |t.data| == 0 && res.Ok?;
    var nid;
    mem', nid := Emit(mem, t.rows, t.cols, t.is1d, res.value.data);
    r := Ok(nid);
  }

  /**
   * Dividing the 2 x 2 tensor [1, 2, 3, 4] by the scalar 2: the dispatch accepts the one-element
   * operand the host meant to send, and refuses the empty one it sends as written.
   */
  lemma DivSizeDropped()
    ensures var t := Tensor(2, 2, false, [1, 2, 3, 4]);
            Arithmetic.Combined(Arithmetic.Plus, t, [2]).Ok? && Arithmetic.Combined(Arithmetic.Plus, t, []).Err?
  {
  }

  /** `tensor_square`. */
  method Square(mem: Memory, id: nat) returns (mem': Memory, nid: nat)
    requires Sound(mem) && id in mem.objects
    ensures Sound(mem') && NewTensor(mem, mem', nid) && mem'.heap == mem.heap
    ensures TensorOf(mem', nid) == BasicMath.Squared(TensorOf(mem, id))
  {
    var u := BasicMath.Square(TensorOf(mem, id));
    mem', nid := Emit(mem, u.rows, u.cols, u.is1d, u.data);
  }

  /**
   * `tensor_mean` with an axis outside -1, 0, 1 refused: the reduced shape of the shared
   * rule, the float means given as values, the shape sent through the wire.
   */
  method Mean(mem: Memory, id: nat, axis: int, keepdims: bool, wire: nat, values: seq<int>) returns (mem': Memory, r: Result<nat, ForeignError>)
    requires Sound(mem) && id in mem.objects && wire in mem.heap && |mem.heap[wire]| >= 3
    requires -1 <= axis <= 1 ==> |values| == Reduction.SliceCount(TensorOf(mem, id), axis) && |values| < MAX_ELEMS
    ensures Sound(mem')
    ensures if !(-1 <= axis <= 1) then r == Err(AxisUnsupported(axis)) && mem' == mem
            else var s := Reduction.ReducedShape(TensorOf(mem, id), axis, keepdims);
                 r.Ok? && NewTensor(mem, mem', r.value) && TensorOf(mem', r.value) == Tensor(s.rows, s.cols, s.is1d, values) &&
                 mem'.heap == mem.heap[wire := WriteShapeWire(s, mem.heap[wire])]
  {
    if !(-1 <= axis <= 1) {
      return mem, Err(AxisUnsupported(axis));
    }
    var t := TensorOf(mem, id);
    var s := Reduction.ReducedShape(t, axis, keepdims);
    assert t.rows < TWO_31 && t.cols < TWO_31 && |values| == s.rows * s.cols;
    var m, nid := Emit(mem, s.rows, s.cols, s.is1d, values);
    mem' := WriteWire(m, wire, s);
    r := Ok(nid);
  }

  /** `tensor_norm`: the shape rule of norm with its two errors, the float norms given as values. */
  method Norm(mem: Memory, id: nat, ord: int, axis: int, keepdims: bool, wire: nat, values: seq<int>) returns (mem': Memory, r: Result<nat, ForeignError>)
    requires Sound(mem) && id in mem.objects && wire in mem.heap && |mem.heap[wire]| >= 3
    requires var s := Matrices.NormShape(TensorOf(mem, id), ord, axis, keepdims);
             s.Ok? ==> |values| == s.value.rows * s.value.cols && |values| < MAX_ELEMS
    ensures Sound(mem')
    ensures var s := Matrices.NormShape(TensorOf(mem, id), ord, axis, keepdims);
            if s.Err? then r == Err(MatrixFailed(s.error)) && mem' == mem
            else r.Ok? && NewTensor(mem, mem', r.value) && TensorOf(mem', r.value) == Tensor(s.value.rows, s.value.cols, s.value.is1d, values) &&
                 mem'.heap == mem.heap[wire := WriteShapeWire(s.value, mem.heap[wire])]
  {
    var t := TensorOf(mem, id);
    var s := Matrices.NormShape(t, ord, axis, keepdims);
    if s.Err? {
      return mem, Err(MatrixFailed(s.error));
    }
    assert s.value.rows <= t.rows || s.value.rows == 1;
    assert s.value.cols <= t.cols || s.value.cols == 1;
    var m, nid := Emit(mem, s.value.rows, s.value.cols, s.value.is1d, values);
    mem' := WriteWire(m, wire, s.value);
    r := Ok(nid);
  }

  /** `tensor_matmul`: the product over int, or the shape error. */
  method MatMul(mem: Memory, id: nat, other: nat, wire: nat) returns (mem': Memory, r: Result<nat, ForeignError>)
    requires Sound(mem) && id in mem.objects && other in mem.objects && wire in mem.heap && |mem.heap[wire]| >= 3
    requires TensorOf(mem, id).rows * TensorOf(mem, other).cols < MAX_ELEMS
    ensures Sound(mem')
    ensures var a, b := TensorOf(mem, id), TensorOf(mem, other);
            if a.cols != b.rows then r == Err(MatrixFailed(Matrices.IncompatibleShapes)) && mem' == mem
            else r.Ok? && NewTensor(mem, mem', r.value) && TensorOf(mem', r.value) == Matrices.Product(a, b) &&
                 mem'.heap == mem.heap[wire := WriteShapeWire(ShapeOf(Matrices.Product(a, b)), mem.heap[wire])]
  {
    var res := Matrices.MatMul(TensorOf(mem, id), TensorOf(mem, other));
    if res.Err? {
      return mem, Err(MatrixFailed(res.error));
    }
    var p := res.value;
    var m, nid := Emit(mem, p.rows, p.cols, p.is1d, p.data);
    mem' := WriteWire(m, wire, ShapeOf(p));
    r := Ok(nid);
  }

  /** `tensor_reverse`. */
  method Reverse(mem: Memory, id: nat, axis: int) returns (mem': Memory, nid: nat)
    requires Sound(mem) && id in mem.objects
    ensures Sound(mem') && NewTensor(mem, mem', nid) && mem'.heap == mem.heap
    ensures TensorOf(mem', nid) == SliceJoin.Reversed(TensorOf(mem, id), axis)
  {
    var u := SliceJoin.Reverse(TensorOf(mem, id), axis);
    mem', nid := Emit(mem, u.rows, u.cols, u.is1d, u.data);
  }

  /** `tensor_transpose`. */
  method Transpose(mem: Memory, id: nat) returns (mem': Memory, nid: nat)
    requires Sound(mem) && id in mem.objects
    ensures Sound(mem') && NewTensor(mem, mem', nid) && mem'.heap == mem.heap
    ensures TensorOf(mem', nid) == Matrices.Transposed(TensorOf(mem, id))
  {
    var u := Matrices.Transpose(TensorOf(mem, id));
    mem', nid := Emit(mem, u.rows, u.cols, u.is1d, u.data);
  }

  /** `tensor_diag`: every write stays inside the result when the data fits one row. */
  method Diag(mem: Memory, id: nat, wire: nat) returns (mem': Memory, nid: nat)
    requires Sound(mem) && id in mem.objects && wire in mem.heap && |mem.heap[wire]| >= 3
    requires |TensorOf(mem, id).data| <= TensorOf(mem, id).cols && |TensorOf(mem, id).data| * TensorOf(mem, id).cols < MAX_ELEMS
    ensures Sound(mem') && NewTensor(mem, mem', nid)
    ensures TensorOf(mem', nid) == Creation.Diagonal(TensorOf(mem, id))
    ensures mem'.heap == mem.heap[wire := WriteShapeWire(ShapeOf(TensorOf(mem', nid)), mem.heap[wire])]
  {
    var u := Creation.Diag(TensorOf(mem, id));
    var m;
    m, nid := Emit(mem, u.rows, u.cols, u.is1d, u.data);
    mem' := WriteWire(m, wire, ShapeOf(u));
  }

  /** The records named by the first size ids of a block. */
  function Operands(mem: Memory, ids: seq<int>): (ts: seq<Tensor>)
    requires Sound(mem) && AllLive(ids, mem.objects)
    ensures |ts| == |ids| && forall k :: 0 <= k < |ids| ==> ts[k] == TensorOf(mem, ids[k] as nat)
  {
    if |ids| == 0 then []
    else Operands(mem, ids[..|ids| - 1]) + [TensorOf(mem, ids[|ids| - 1] as nat)]
  }

  /** `tensor_stack`: the inputs named in the block, concatenated under the first one's shape. */
  method Stack(mem: Memory, instances: nat, size: nat) returns (mem': Memory, nid: nat)
    requires Sound(mem) && instances in mem.heap && size <= |mem.heap[instances]|
    requires AllLive(mem.heap[instances][..size], mem.objects)
    requires var ts := Operands(mem, mem.heap[instances][..size]);
             SliceJoin.Fits(ts) &&
             (size > 0 ==> ts[0].rows * size < TWO_31 && ts[0].rows * size * ts[0].cols < MAX_ELEMS)
    ensures Sound(mem') && NewTensor(mem, mem', nid) && mem'.heap == mem.heap
    ensures TensorOf(mem', nid) == SliceJoin.Stacked(Operands(mem, mem.heap[instances][..size]))
  {
    var ts := Operands(mem, mem.heap[instances][..size]);
    var u := SliceJoin.Stack(ts);
    mem', nid := Emit(mem, u.rows, u.cols, u.is1d, u.data);
  }

  /** A successful reshape of a record that fits in memory has dimensions the wire can carry. */
  lemma ReshapeFits(t: Tensor, newRows: int, newCols: int)
    requires |t.data| < MAX_ELEMS && Transformations.IsInt(newRows) && Transformations.IsInt(newCols)
    requires Transformations.Reshape(t, newRows, newCols).Ok?
    ensures var u := Transformations.Reshape(t, newRows, newCols).value;
            Shaped(u.rows, u.cols, u.data)
  {
    var total := |t.data|;
    var u := Transformations.Reshape(t, newRows, newCols).value;
    assert u.data == t.data && u.rows * u.cols == total;
    if newRows == -1 && newCols == -2 {
      assert u.rows == 1 && u.cols == total;
    } else if newRows == -1 {
      assert u.cols == newCols && newCols >= 1 && u.rows == total / newCols;
      RowMajor.MulLe(1, newCols, total / newCols);
    } else if newCols == -1 || newCols == -2 {
      assert u.rows == newRows && newRows >= 1 && u.cols == total / newRows;
      RowMajor.MulLe(1, newRows, total / newRows);
    } else {
      assert u.rows == newRows && u.cols == newCols;
      if u.rows > 0 {
        RowMajor.MulLe(1, u.rows, u.cols);
      }
      if u.cols > 0 {
        RowMajor.MulLe(1, u.cols, u.rows);
      }
    }
  }

  /** `tensor_flatten` as written: the 1-d flag is set but rows and cols are kept. */
  function FlattenedAsWritten(o: Obj): (f: Obj)
    ensures f.buf == o.buf && f.is1d
  {
    Obj(o.rows, o.cols, true, o.buf)
  }

  /**
   * A 2 x 2 object flattened as written is 1-d with four elements over two columns, while the
   * host records it as 1 x 4: the diag the host then allows would write element 3 at
   * 3 * 2 + 3 = 9, outside the 4 x 2 result.
   */
  lemma FlattenKeepsRows()
    ensures var f := FlattenedAsWritten(Obj(2, 2, false, 7));
            f.is1d && f.rows != 1 && f.rows * f.cols > f.cols && 3 * f.cols + 3 >= (f.rows * f.cols) * f.cols
  {
  }
}
