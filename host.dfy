/** Tensor.ts, static side: the scope arena, the in-scope flag and the live-handle counter, over the module's memory. */
module Host {
  import opened Wrappers
  import RowMajor
  import Core
  import Foreign
  import Arithmetic
  import Matrices
  import Transformations
  import SliceJoin
  import BasicMath
  import Reduction
  import Creation
  import opened Handles

  /** The process-wide state of Tensor.ts: the static fields, and the memory of the compiled module they drive. */
  class Registry {
    var scopedInstances: seq<Tensor>
    var inScope: bool
    var activePointers: int
    /** `Tensor.wasm`: the module's linear memory. */
    var mem: Foreign.Memory
    /** Every handle ever completed. */
    ghost var handles: set<Tensor>
    /** The live handles, by the id they hold. */
    ghost var owner: map<nat, Tensor>

    ghost function Statics(): Snapshot
      reads this
    {
      Snapshot(scopedInstances, inScope, activePointers, owner, handles)
    }

    /** The registry is coherent with the module's memory. */
    ghost predicate Valid()
      reads this, handles
    {
      Coherent(mem, Statics())
    }

    /** A handle this registry completed and that was not deleted since. */
    ghost predicate Active(h: Tensor)
      reads this, h
    {
      h in handles && !h.deleted
    }

    /** The module is instantiated with nothing allocated; no handle exists and no scope is open. */
    constructor ()
      ensures Valid() && mem == Foreign.Instantiate() && Statics() == Snapshot([], false, 0, map[], {})
    {
      mem := Foreign.Instantiate();
      scopedInstances, inScope, activePointers := [], false, 0;
      handles, owner := {}, map[];
    }

    /** The tail of the constructor: the data pointer is read, the handle counted and, while a scope is open, registered. */
    method Register(p: nat, s: Core.Shape, kd: Option<bool>) returns (h: Tensor)
      requires p in mem.objects
      modifies this
      ensures fresh(h) && Statics() == Admit(old(Statics()), h, p) && mem == old(mem)
      ensures h.ptr == p && h.dataPtr == mem.objects[p].buf && !h.deleted && h.keepdims == kd
      ensures h.rows == s.rows && h.cols == s.cols && h.is1d == s.is1d
    {
      var dp := Foreign.DataPtr(mem, p);
      h := new Tensor(p, dp, s, kd);
      if inScope {
        scopedInstances := scopedInstances + [h];
      }
      handles := handles + {h};
      owner := owner[p := h];
      activePointers := activePointers + 1;
    }

    /** The memory moves on to m, which keeps every object: scratch blocks come and go, or a result is abandoned. */
    method Advance(m: Foreign.Memory)
      requires Valid() && Foreign.Sound(m) && Grown(mem, m)
      modifies this
      ensures Valid() && Statics() == old(Statics()) && mem == m
    {
      mem := m;
      Stepped(old(mem), mem, old(Statics()));
    }

    /** `fromPointer(shape, is1d, p)` for an object p the call just added: a handle of shape s over it, with keepdims kd. */
    method Adopt(m: Foreign.Memory, p: nat, s: Core.Shape, kd: Option<bool>) returns (h: Tensor)
      requires Valid() && Foreign.Sound(m) && Foreign.Added(mem, m, p)
      requires var o := m.objects[p]; o.rows == s.rows && o.cols == s.cols && o.is1d == s.is1d && (s.is1d ==> s.rows == 1)
      modifies this
      ensures Valid() && fresh(h) && Statics() == Admit(old(Statics()), h, p) && mem == m
      ensures h.ptr == p && h.dataPtr == m.objects[p].buf && !h.deleted && h.keepdims == kd
      ensures h.rows == s.rows && h.cols == s.cols && h.is1d == s.is1d
    {
      mem := m;
      h := Register(p, s, kd);
      Admitted(old(mem), mem, old(Statics()), h);
    }

    /**
     * `fromPointer` followed by `_syncShapeWire`: a handle over the object p the call just
     * added, with the shape the kernel wrote into the wire, which is then freed, and keepdims
     * kd. The shape `fromPointer` would give first is overwritten entirely, so the handle is
     * built with the synced shape directly.
     */
    method AdoptWired(m: Foreign.Memory, p: nat, wire: ShapeWire, kd: Option<bool>) returns (h: Tensor)
      requires Valid() && Foreign.Sound(m) && Foreign.Added(mem, m, p)
      requires var o := m.objects[p]; wire.ptr in m.heap && Carries(m.heap[wire.ptr], o.rows, o.cols, o.is1d) && (o.is1d ==> o.rows == 1)
      modifies this
      ensures Valid() && fresh(h) && Statics() == Admit(old(Statics()), h, p) && mem == m.(heap := m.heap - {wire.ptr})
      ensures var o := m.objects[p];
              h.ptr == p && h.dataPtr == o.buf && !h.deleted && h.keepdims == kd &&
              h.rows == o.rows && h.cols == o.cols && h.is1d == o.is1d
    {
      var m', rows, cols, is1d := wire.Sync(m);
      h := Adopt(m', p, Core.Shape(rows, cols, is1d), kd);
    }
    /** `transpose`: refused for a 1-d handle; otherwise a handle of the transposed object, cols x rows. */
    method Transpose(h: Tensor) returns (r: Result<Tensor, HostError>)
      requires Valid() && Active(h)
      modifies this
      ensures Valid()
      ensures r.Err? <==> h.is1d
      ensures r.Err? ==> r.error == TransposeOn1d && unchanged(this)
      ensures r.Ok? ==> fresh(r.value) && Statics() == Admit(old(Statics()), r.value, r.value.ptr) &&
                        Foreign.NewTensor(old(mem), mem, r.value.ptr) && mem.heap == old(mem.heap) &&
                        Foreign.TensorOf(mem, r.value.ptr) == Matrices.Transposed(Foreign.TensorOf(old(mem), old(h.ptr)))
    {
      if h.is1d {
        return Err(TransposeOn1d);
      }
      var m, p := Foreign.Transpose(mem, h.ptr);
      var t := Adopt(m, p, PointerShape(h.cols, h.rows, false), None);
      r := Ok(t);
    }

    /**
     * `reshape`: a handle over the same data with the shape the kernel inferred and sent
     * through the wire. A missing cols goes out as the kernel's -2 alias, as
     * `Handles.ReshapeArgsIntended` says. When the kernel throws, the wire's block is never freed.
     */
    method Reshape(h: Tensor, arg: ReshapeArg) returns (r: Result<Tensor, HostError>)
      requires Valid() && Active(h)
      modifies this
      ensures Valid()
      ensures var expected := Transformations.Reshape(Foreign.TensorOf(old(mem), old(h.ptr)), ReshapeArgsIntended(arg).0, ReshapeArgsIntended(arg).1);
              if expected.Err? then
                r == Err(ForeignFailed(Foreign.ReshapeFailed(expected.error))) && Statics() == old(Statics()) && Leaked(old(mem), mem)
              else
                r.Ok? && fresh(r.value) && Statics() == Admit(old(Statics()), r.value, r.value.ptr) &&
                Foreign.NewAlias(old(mem), mem, r.value.ptr, old(h.ptr)) && mem.heap == old(mem.heap) &&
                Foreign.TensorOf(mem, r.value.ptr) == expected.value
    {
      var (rows, cols) := ReshapeArgsIntended(arg);
      var m, wire := NewShapeWire(mem);
      ghost var blank := m.heap[wire.ptr];
      var res;
      m, res := Foreign.Reshape(m, h.ptr, rows, cols, wire.ptr);
      if res.Err? {
        Advance(m);
        return Err(ForeignFailed(res.error));
      }
      WiredShape(Core.ShapeOf(Foreign.TensorOf(m, res.value)), blank);
      var t := AdoptWired(m, res.value, wire, None);
      Reclaimed(old(mem.heap), wire.ptr, blank, m.heap[wire.ptr]);
      r := Ok(t);
    }
    /** The bookkeeping of `delete` for a live handle: uncounted, marked deleted, its id no longer owned. */
    method Retire(h: Tensor)
      requires Valid() && Active(h)
      modifies this, h
      ensures Valid() && Statics() == Dropped(old(Statics()), old(h.ptr)) && mem == old(mem)
      ensures h.deleted && h.ptr == old(h.ptr)
    {
      activePointers := activePointers - 1;
      h.deleted := true;
      owner := owner - {h.ptr};
      Retired(mem, old(Statics()), h);
    }

    /** `_tensor_delete` of an object no live handle owns. */
    method Release(p: nat)
      requires Valid() && p in mem.objects && p !in owner
      modifies this
      ensures Valid() && Statics() == old(Statics()) && Foreign.Freed(old(mem), mem, {p})
      ensures forall g :: g in handles ==> unchanged(g)
    {
      mem := Foreign.Delete(mem, p);
      Released(old(mem), mem, old(Statics()), {p});
    }

    /**
     * `delete`: a live handle is uncounted, marked deleted and its object deleted, its buffer
     * going with the last object holding it; a deleted handle is left alone, so no object is
     * deleted twice.
     */
    method Delete(h: Tensor)
      requires Valid() && h in handles
      modifies this, h
      ensures Valid()
      ensures old(h.deleted) ==> unchanged(this, h)
      ensures !old(h.deleted) ==>
                h.deleted && h.ptr == old(h.ptr) && Statics() == Dropped(old(Statics()), old(h.ptr)) &&
                Foreign.Freed(old(mem), mem, {old(h.ptr)})
    {
      if !h.deleted {
        Retire(h);
        Release(h.ptr);
      }
    }

    /** `beginScope`: handles completed from now on are registered in the arena. */
    method BeginScope()
      requires Valid()
      modifies this
      ensures Valid() && Statics() == old(Statics()).(inScope := true) && mem == old(mem)
    {
      inScope := true;
    }

    /**
     * The tombstoning loop of `scope`: every live handle of the arena other than the result
     * is retired with its id reset to 0, its id collected in arena order.
     */
    method Tombstone(result: Option<Tensor>) returns (captured: seq<nat>, ghost victims: seq<Tensor>)
      requires Distinct(scopedInstances)
      modifies this, scopedInstances
      ensures mem == old(mem) && scopedInstances == old(scopedInstances) && inScope == old(inScope) && handles == old(handles)
      ensures victims == old(Captured(scopedInstances, result)) && captured == old(Ptrs(Captured(scopedInstances, result)))
      ensures forall g :: g in Elems(victims) ==> Buried(g)
      ensures owner == old(owner) - Ids(captured) && activePointers == old(activePointers) - |captured|
      ensures forall g :: g in old(handles) && g !in Elems(victims) ==> Kept(g)
    {
      var s := scopedInstances;
      victims := Captured(s, result);
      CapturedMembers(s, result);
      captured := Sweep(result);
      forall g | g in Elems(victims)
        ensures Buried(g)
      {
        var j :| 0 <= j < |s| && s[j] == g;
        assert Swept(s[j], result);
      }
      forall g | g in old(handles) && g !in Elems(victims)
        ensures Kept(g)
      {
        if g in Elems(s) {
          var j :| 0 <= j < |s| && s[j] == g;
          assert Swept(s[j], result);
        }
      }
    }

    /** Tombstone keeps the registry valid. */
    method Entomb(result: Option<Tensor>) returns (captured: seq<nat>, ghost victims: seq<Tensor>)
      requires Valid()
      modifies this, handles
      ensures Valid() && mem == old(mem)
      ensures Statics() == old(Statics()).(count := old(activePointers) - |captured|, owner := old(owner) - Ids(captured))
      ensures victims == old(Captured(scopedInstances, result)) && captured == old(Ptrs(Captured(scopedInstances, result)))
      ensures forall g :: g in Elems(victims) ==> Buried(g)
      ensures forall g :: g in old(handles) && g !in Elems(victims) ==> Kept(g)
      ensures Orphans(mem, owner, captured)
    {
      CapturedOwned(mem, Statics(), result);
      captured, victims := Tombstone(result);
      Tombstoned(mem, old(Statics()), victims, captured);
    }

    /** The loop of Tombstone, stated entry by entry of the arena. */
    method Sweep(result: Option<Tensor>) returns (captured: seq<nat>)
      requires Distinct(scopedInstances)
      modifies this, scopedInstances
      ensures mem == old(mem) && scopedInstances == old(scopedInstances) && inScope == old(inScope) && handles == old(handles)
      ensures captured == old(Ptrs(Captured(scopedInstances, result)))
      ensures owner == old(owner) - Ids(captured) && activePointers == old(activePointers) - |captured|
      ensures forall k :: 0 <= k < |scopedInstances| ==> Swept(scopedInstances[k], result)
    {
      captured := SweepArena(scopedInstances, result);
      activePointers := activePointers - |captured|;
      owner := owner - Ids(captured);
    }

    /** Tombstones the captured handles of s in order, collecting their ids. */
    static method SweepArena(s: seq<Tensor>, result: Option<Tensor>) returns (captured: seq<nat>)
      requires Distinct(s)
      modifies s
      ensures captured == old(Ptrs(Captured(s, result)))
      ensures forall k :: 0 <= k < |s| ==> Swept(s[k], result)
    {
      CapturedSteps(s, result);
      captured := [];
      for i := 0 to |s|
        invariant captured == old(Ptrs(Captured(s[..i], result)))
        invariant forall k :: 0 <= k < |s| ==> if k < i then Swept(s[k], result) else Kept(s[k])
      {
        var m := s[i];
        assert Kept(m);
        assert forall k :: 0 <= k < |s| && k != i ==> s[k] != m;
        if Some(m) != result && !m.deleted {
          assert (captured + [m.ptr])[..|captured|] == captured;
          captured := captured + [m.ptr];
          m.Bury();
        }
        assert Swept(m, result);
      }
      assert s[..|s|] == s;
    }

    /**
     * The clean-up of `scope`: the ids are written to a block from `_malloc`, which
     * `_tensor_batch_delete` consumes and `_free` releases.
     */
    method ReleaseAll(ids: seq<nat>)
      requires Valid() && Orphans(mem, owner, ids)
      modifies this
      ensures Valid() && Statics() == old(Statics()) && Foreign.Freed(old(mem), mem, Ids(ids))
    {
      OrphansApart(mem, owner, ids);
      var m := DeleteBatch(mem, ids);
      mem := m;
      Released(old(mem), mem, old(Statics()), Ids(ids));
    }

    /** The batch itself: the ids are copied into a malloc'd block, `batch_delete` frees them, the block is freed. */
    static method DeleteBatch(mem: Foreign.Memory, ids: seq<nat>) returns (m: Foreign.Memory)
      requires Foreign.Sound(mem) && Batch(mem, ids)
      ensures Foreign.Sound(m) && Foreign.Freed(mem, m, Ids(ids))
    {
      var a;
      m, a := Foreign.Malloc(mem, |ids|);
      ghost var junk := m.heap[a];
      m := Foreign.Store(m, a, ids);
      assert m.heap[a][..|ids|] == ids;
      IdsNonNull(ids);
      m := Foreign.BatchDelete(m, a, |ids|);
      ghost var stored := m.heap[a];
      m := Foreign.Free(m, a);
      Reclaimed(mem.heap, a, junk, stored);
    }

    /**
     * `scope` once its callback has ended (and `endScope`, with no callback): scoping is
     * switched off, every live handle of the arena other than the callback's result is
     * tombstoned and its object deleted in one batch, and the arena is emptied; the outcome
     * is passed on, a thrown error only after the clean-up.
     */
    method CloseScope(outcome: Outcome) returns (tombstones: seq<nat>, r: Outcome)
      requires Valid()
      modifies this, handles
      ensures Valid() && r == outcome
      ensures Statics() == old(Statics()).(scoped := [], inScope := false, count := old(activePointers) - |tombstones|,
                                           owner := old(owner) - Ids(tombstones))
      ensures tombstones == old(Ptrs(Captured(scopedInstances, Survivor(outcome))))
      ensures forall g :: g in Elems(old(Captured(scopedInstances, Survivor(outcome)))) ==> Buried(g)
      ensures forall g :: g in old(handles) && g !in Elems(old(Captured(scopedInstances, Survivor(outcome)))) ==> Kept(g)
      ensures Foreign.Freed(old(mem), mem, Ids(tombstones))
    {
      ghost var victims;
      tombstones, victims := Entomb(Survivor(outcome));
      Finish(tombstones);
      r := outcome;
    }

    /** The rest of `scope` once the arena is swept: the flag cleared, the objects deleted, the arena emptied. */
    method Finish(ids: seq<nat>)
      requires Valid() && Orphans(mem, owner, ids)
      modifies this
      ensures Valid() && Statics() == old(Statics()).(inScope := false, scoped := []) && Foreign.Freed(old(mem), mem, Ids(ids))
      ensures forall g :: g in handles ==> unchanged(g)
    {
      LeaveScope();
      ReleaseAll(ids);
      ResetArena();
    }

    /** `Tensor.inScope = false`: handles completed from now on are not registered. */
    method LeaveScope()
      requires Valid()
      modifies this
      ensures Valid() && Statics() == old(Statics()).(inScope := false) && mem == old(mem)
    {
      inScope := false;
    }

    /** `Tensor.scopedInstances = []`: the arena is emptied. */
    method ResetArena()
      requires Valid()
      modifies this
      ensures Valid() && Statics() == old(Statics()).(scoped := []) && mem == old(mem)
    {
      scopedInstances := [];
      Emptied(mem, old(Statics()));
    }

    /**
     * `endScope`: `scope` with no callback, so nothing survives. The flag `scope` sets on entry
     * is cleared again before any handle can be completed, so the model goes straight to the sweep.
     */
    method EndScope() returns (tombstones: seq<nat>)
      requires Valid()
      modifies this, handles
      ensures Valid()
      ensures Statics() == old(Statics()).(scoped := [], inScope := false, count := old(activePointers) - |tombstones|,
                                           owner := old(owner) - Ids(tombstones))
      ensures tombstones == old(Ptrs(Captured(scopedInstances, None)))
      ensures forall g :: g in Elems(old(Captured(scopedInstances, None))) ==> Buried(g)
      ensures forall g :: g in old(handles) && g !in Elems(old(Captured(scopedInstances, None))) ==> Kept(g)
      ensures Foreign.Freed(old(mem), mem, Ids(tombstones))
    {
      var outcome;
      tombstones, outcome := CloseScope(Returned(None));
    }

    /** `memory()`: the live-handle counter, which in a coherent registry is the number of live handles. */
    function Memory(): (pointers: int)
      reads this, handles
      ensures Valid() ==> pointers == |owner|
    {
      activePointers
    }

    /**
     * `new Tensor(data, shape)`: falsy data, a shape that is not an array and jagged rows are
     * refused before the module is called; the rest is `Complete`.
     */
    method Construct(data: HostData, shape: ShapeArg) returns (r: Result<Tensor, HostError>)
      requires Valid()
      requires InferredShape(data, shape).Ok? ==> Allocatable(InferredShape(data, shape).value)
      modifies this
      ensures Valid()
      ensures Rejected(data, shape).Some? ==> r == Err(Rejected(data, shape).value) && unchanged(this)
      ensures Rejected(data, shape).None? ==> Completed(old(Statics()), old(mem), data, shape, InferredShape(data, shape).value, r)
    {
      if data.Falsy? {
        return Err(MissingData);
      }
      if shape.NotAnArray? {
        return Err(ShapeNotArray);
      }
      var inferred := InferShape(data, shape);
      if inferred.Err? {
        return Err(inferred.error);
      }
      r := Complete(data, shape, inferred.value);
    }

    /**
     * What the constructor leaves once the shape s is known: when data is not the NULL
     * sentinel and `setData` refuses it (as it refuses every array against an empty shape
     * array, whose rows and cols are undefined), the object `_tensor_create` made stays behind,
     * uncounted and unregistered; otherwise a new handle over it, counted and, in a scope,
     * registered, holding the data written.
     */
    twostate predicate Completed(s0: Snapshot, mem0: Foreign.Memory, data: HostData, shape: ShapeArg, s: Core.Shape, new r: Result<Tensor, HostError>)
      reads this, if r.Ok? then {r.value} else {}
    {
      if !data.NullData? && ConstructorRefusal(data, shape, s).Some? then
        r == Err(ConstructorRefusal(data, shape, s).value) && Statics() == s0 && Grown(mem0, mem) && mem.heap == mem0.heap
      else
        r.Ok? && fresh(r.value) && Statics() == Admit(s0, r.value, r.value.ptr) &&
        Foreign.NewTensor(mem0, mem, r.value.ptr) && mem.heap == mem0.heap &&
        r.value.Shape() == Listed(s) && r.value.keepdims.None? &&
        Foreign.TensorOf(mem, r.value.ptr) == Core.Tensor(s.rows, s.cols, s.is1d, Written(data, s))
    }

    /** The count and the arena once `Allocate` is through, or the refusal `setData` raised. */
    method Complete(data: HostData, shape: ShapeArg, s: Core.Shape) returns (r: Result<Tensor, HostError>)
      requires Valid() && Allocatable(s) && (s.is1d ==> s.rows == 1)
      modifies this
      ensures Valid() && Completed(old(Statics()), old(mem), data, shape, s, r)
    {
      var m, p, e := Allocate(mem, data, shape, s);
      if e.Some? {
        Advance(m);
        return Err(e.value);
      }
      var h := Adopt(m, p, s, None);
      r := Ok(h);
    }

    /** `_tensor_create`, `_tensor_get_data_ptr`, then `setData` unless data is the NULL sentinel. */
    static method Allocate(mem: Foreign.Memory, data: HostData, shape: ShapeArg, s: Core.Shape) returns (m: Foreign.Memory, p: nat, e: Option<HostError>)
      requires Foreign.Sound(mem) && Allocatable(s)
      ensures Foreign.Sound(m) && Foreign.NewTensor(mem, m, p) && m.heap == mem.heap
      ensures m.objects[p] == Foreign.Obj(s.rows, s.cols, s.is1d, m.objects[p].buf)
      ensures e == (if data.NullData? then None else ConstructorRefusal(data, shape, s))
      ensures e.None? ==> Foreign.TensorOf(m, p) == Core.Tensor(s.rows, s.cols, s.is1d, Written(data, s))
    {
      m, p := Foreign.Create(mem, s.rows, s.cols, s.is1d);
      if data.NullData? {
        return m, p, None;
      }
      e := ConstructorRefusal(data, shape, s);
      if e.None? {
        m := Foreign.StoreData(m, Foreign.DataPtr(m, p), Elements(data));
      }
    }

    /**
     * `setData` on a live handle: anything but an array or a typed array, or the wrong number
     * of elements, is refused; otherwise the elements replace the buffer, which every handle
     * sharing it then reads.
     */
    method SetData(h: Tensor, data: HostData) returns (r: Result<Tensor, HostError>)
      requires Valid() && Active(h)
      modifies this
      ensures Valid() && Statics() == old(Statics())
      ensures SetDataError(data, h.rows, h.cols).Some? ==> r == Err(SetDataError(data, h.rows, h.cols).value) && mem == old(mem)
      ensures SetDataError(data, h.rows, h.cols).None? ==>
              r == Ok(h) && mem == old(mem).(buffers := old(mem).buffers[h.dataPtr := Elements(data)]) &&
              forall g :: g in handles && !g.deleted && g.dataPtr == h.dataPtr ==> Foreign.TensorOf(mem, g.ptr).data == Elements(data)
    {
      var e := SetDataError(data, h.rows, h.cols);
      if e.Some? {
        return Err(e.value);
      }
      var m := Foreign.StoreData(mem, h.dataPtr, Elements(data));
      Advance(m);
      r := Ok(h);
    }

    /** `clone`: a new handle over a new object that shares the buffer and the shape. */
    method Clone(h: Tensor) returns (c: Tensor)
      requires Valid() && Active(h)
      modifies this
      ensures Valid() && fresh(c) && Statics() == Admit(old(Statics()), c, c.ptr)
      ensures Foreign.NewAlias(old(mem), mem, c.ptr, old(h.ptr)) && mem.heap == old(mem.heap)
      ensures Foreign.TensorOf(mem, c.ptr) == Foreign.TensorOf(old(mem), old(h.ptr))
      ensures c.Shape() == h.Shape() && c.dataPtr == h.dataPtr
    {
      var m, p := Foreign.Clone(mem, h.ptr);
      c := Adopt(m, p, PointerShape(h.rows, h.cols, h.is1d), None);
    }

    /**
     * `flatten`: a new 1-d handle of rows * cols elements over the same buffer, made by the
     * corrected `tensor_flatten`, whose object has the shape the handle records.
     */
    method Flatten(h: Tensor) returns (f: Tensor)
      requires Valid() && Active(h)
      modifies this
      ensures Valid() && fresh(f) && Statics() == Admit(old(Statics()), f, f.ptr)
      ensures Foreign.NewAlias(old(mem), mem, f.ptr, old(h.ptr)) && mem.heap == old(mem.heap)
      ensures Foreign.TensorOf(mem, f.ptr) == Core.Tensor(1, h.rows * h.cols, true, Foreign.TensorOf(old(mem), old(h.ptr)).data)
      ensures f.Shape() == [h.rows * h.cols] && f.dataPtr == h.dataPtr
    {
      var m, p := Foreign.Flatten(mem, h.ptr);
      f := Adopt(m, p, PointerShape(1, h.rows * h.cols, true), None);
    }

    /**
     * `add`, `sub`, `mul`: the kernel's result, adopted with the receiver's shape. When the
     * kernel throws, `free` is never reached: a temporary stays allocated, a borrowed buffer
     * is untouched.
     */
    method Arith(op: Arithmetic.Op, h: Tensor, input: InputData) returns (r: Result<Tensor, HostError>)
      requires Valid() && Active(h) && (input.Operand? ==> Active(input.tensor))
      modifies this
      ensures Valid()
      ensures var expected := Arithmetic.Combined(op, Foreign.TensorOf(old(mem), old(h.ptr)), OperandOf(old(mem), input));
              if expected.Err? then
                r == Err(ForeignFailed(Foreign.ArithFailed(expected.error))) && Statics() == old(Statics()) &&
                Leaked(old(mem), mem) && (input.Operand? ==> mem.heap == old(mem.heap))
              else
                r.Ok? && fresh(r.value) && Statics() == Admit(old(Statics()), r.value, r.value.ptr) &&
                Foreign.NewTensor(old(mem), mem, r.value.ptr) && mem.heap == old(mem.heap) &&
                Foreign.TensorOf(mem, r.value.ptr) == expected.value && r.value.Shape() == h.Shape()
    {
      if input.Operand? {
        BorrowedWhole(mem, input.tensor);
      }
      var m, res := Operate(mem, op, h.ptr, input);
      if res.Err? {
        Advance(m);
        return Err(ForeignFailed(res.error));
      }
      var t := Adopt(m, res.value, PointerShape(h.rows, h.cols, h.is1d), None);
      r := Ok(t);
    }

    /** The module's side of `add`, `sub`, `mul`: InputArgs built, the kernel called, then `free`. */
    static method Operate(mem: Foreign.Memory, op: Arithmetic.Op, id: nat, input: InputData) returns (m: Foreign.Memory, res: Result<nat, Foreign.ForeignError>)
      requires Foreign.Sound(mem) && id in mem.objects
      requires input.Operand? ==> input.tensor.dataPtr in mem.buffers && |mem.buffers[input.tensor.dataPtr]| == input.tensor.rows * input.tensor.cols
      ensures Foreign.Sound(m)
      ensures var expected := Arithmetic.Combined(op, Foreign.TensorOf(mem, id), OperandOf(mem, input));
              if expected.Err? then
                res == Err(Foreign.ArithFailed(expected.error)) && Leaked(mem, m) && (input.Operand? ==> m.heap == mem.heap)
              else
                res.Ok? && Foreign.NewTensor(mem, m, res.value) && m.heap == mem.heap &&
                Foreign.TensorOf(m, res.value) == expected.value
    {
      var args;
      m, args := NewInputArgs(mem, input);
      assert Foreign.Block(m, args.ptr)[..args.size] == OperandOf(mem, input);
      ghost var before := m;
      m, res := Foreign.Arith(m, op, id, args.ptr, args.size);
      if res.Ok? {
        m := args.Free(m);
        assert !args.isOwned ==> before.heap - {args.ptr} == mem.heap;
      }
    }

    /** `div`: the dispatch and errors of `add`; the quotients, floating point, are given as values. */
    method Div(h: Tensor, input: InputData, values: seq<int>) returns (r: Result<Tensor, HostError>)
      requires Valid() && Active(h) && (input.Operand? ==> Active(input.tensor))
      requires |values| == h.rows * h.cols
      modifies this
      ensures Valid()
      ensures var expected := Arithmetic.Combined(Arithmetic.Plus, Foreign.TensorOf(old(mem), old(h.ptr)), OperandOf(old(mem), input));
              if expected.Err? then
                r == Err(ForeignFailed(Foreign.ArithFailed(expected.error))) && Statics() == old(Statics()) &&
                Leaked(old(mem), mem) && (input.Operand? ==> mem.heap == old(mem.heap))
              else
                r.Ok? && fresh(r.value) && Statics() == Admit(old(Statics()), r.value, r.value.ptr) &&
                Foreign.NewTensor(old(mem), mem, r.value.ptr) && mem.heap == old(mem.heap) &&
                Foreign.TensorOf(mem, r.value.ptr) == Foreign.TensorOf(old(mem), old(h.ptr)).(data := values) &&
                r.value.Shape() == h.Shape()
    {
      if input.Operand? {
        BorrowedWhole(mem, input.tensor);
      }
      var m, res := Divide(mem, h.ptr, input, values);
      if res.Err? {
        Advance(m);
        return Err(ForeignFailed(res.error));
      }
      var t := Adopt(m, res.value, PointerShape(h.rows, h.cols, h.is1d), None);
      r := Ok(t);
    }

    /** The module's side of `div`: InputArgs built, `_tensor_div` called, then `free`. */
    static method Divide(mem: Foreign.Memory, id: nat, input: InputData, values: seq<int>) returns (m: Foreign.Memory, res: Result<nat, Foreign.ForeignError>)
      requires Foreign.Sound(mem) && id in mem.objects && |values| == |Foreign.TensorOf(mem, id).data|
      requires input.Operand? ==> input.tensor.dataPtr in mem.buffers && |mem.buffers[input.tensor.dataPtr]| == input.tensor.rows * input.tensor.cols
      ensures Foreign.Sound(m)
      ensures var expected := Arithmetic.Combined(Arithmetic.Plus, Foreign.TensorOf(mem, id), OperandOf(mem, input));
              if expected.Err? then
                res == Err(Foreign.ArithFailed(expected.error)) && Leaked(mem, m) && (input.Operand? ==> m.heap == mem.heap)
              else
                res.Ok? && Foreign.NewTensor(mem, m, res.value) && m.heap == mem.heap &&
                Foreign.TensorOf(m, res.value) == Foreign.TensorOf(mem, id).(data := values)
    {
      var args;
      m, args := NewInputArgs(mem, input);
      assert Foreign.Block(m, args.ptr)[..args.size] == OperandOf(mem, input);
      ghost var before := m;
      m, res := Foreign.Div(m, id, args.ptr, args.size, values);
      if res.Ok? {
        m := args.Free(m);
        assert !args.isOwned ==> before.heap - {args.ptr} == mem.heap;
      }
    }

    /** `square`: the squared elements, with the receiver's shape. */
    method Square(h: Tensor) returns (q: Tensor)
      requires Valid() && Active(h)
      modifies this
      ensures Valid() && fresh(q) && Statics() == Admit(old(Statics()), q, q.ptr)
      ensures Foreign.NewTensor(old(mem), mem, q.ptr) && mem.heap == old(mem.heap)
      ensures Foreign.TensorOf(mem, q.ptr) == BasicMath.Squared(Foreign.TensorOf(old(mem), old(h.ptr))) && q.Shape() == h.Shape()
    {
      var m, p := Foreign.Square(mem, h.ptr);
      q := Adopt(m, p, PointerShape(h.rows, h.cols, h.is1d), None);
    }

    /**
     * `reverse`: an axis above -1 is refused on a 1-d tensor before the module is called;
     * otherwise the reversed copy, with the receiver's shape.
     */
    method Reverse(h: Tensor, axis: Option<int>) returns (r: Result<Tensor, HostError>)
      requires Valid() && Active(h)
      modifies this
      ensures Valid()
      ensures r.Err? <==> h.is1d && AxisOf(axis) > -1
      ensures r.Err? ==> r.error == AxisOn1d && unchanged(this)
      ensures r.Ok? ==> fresh(r.value) && Statics() == Admit(old(Statics()), r.value, r.value.ptr) &&
                        Foreign.NewTensor(old(mem), mem, r.value.ptr) && mem.heap == old(mem.heap) &&
                        Foreign.TensorOf(mem, r.value.ptr) == SliceJoin.Reversed(Foreign.TensorOf(old(mem), old(h.ptr)), Core.Int32(AxisOf(axis))) &&
                        r.value.Shape() == h.Shape()
    {
      var a := AxisOf(axis);
      if h.is1d && a > -1 {
        return Err(AxisOn1d);
      }
      var m, p := Foreign.Reverse(mem, h.ptr, Core.Int32(a));
      var t := Adopt(m, p, PointerShape(h.rows, h.cols, h.is1d), None);
      r := Ok(t);
    }

    /**
     * `mean`: an axis above -1 (a missing one reads as -1) is refused on a 1-d tensor; the
     * module receives the axis wrapped to its `int` parameter and refuses one outside -1..1; otherwise the reduced shape, synced from the wire,
     * and keepdims recorded. The float means are given as values.
     */
    method Mean(h: Tensor, axis: Option<int>, keepdims: bool, values: seq<int>) returns (r: Result<Tensor, HostError>)
      requires Valid() && Active(h)
      requires var k := Core.Int32(AxisOf(axis));
               -1 <= k <= 1 ==> |values| == Reduction.SliceCount(Foreign.TensorOf(mem, h.ptr), k) && |values| < Foreign.MAX_ELEMS
      modifies this
      ensures Valid()
      ensures var a, k := AxisOf(axis), Core.Int32(AxisOf(axis));
              if h.is1d && a > -1 then r == Err(AxisOn1d) && unchanged(this)
              else if !(-1 <= k <= 1) then
                r == Err(ForeignFailed(Foreign.AxisUnsupported(k))) && Statics() == old(Statics()) && Leaked(old(mem), mem)
              else
                var s := Reduction.ReducedShape(Foreign.TensorOf(old(mem), old(h.ptr)), k, keepdims);
                r.Ok? && fresh(r.value) && Statics() == Admit(old(Statics()), r.value, r.value.ptr) &&
                Foreign.NewTensor(old(mem), mem, r.value.ptr) && mem.heap == old(mem.heap) &&
                Foreign.TensorOf(mem, r.value.ptr) == Core.Tensor(s.rows, s.cols, s.is1d, values) &&
                r.value.Shape() == Listed(s) && r.value.keepdims == Some(keepdims)
    {
      var a := AxisOf(axis);
      if h.is1d && a > -1 {
        return Err(AxisOn1d);
      }
      var m, wire, res := Averaged(mem, h.ptr, Core.Int32(a), keepdims, values);
      if res.Err? {
        Advance(m);
        return Err(ForeignFailed(res.error));
      }
      var t := AdoptWired(m, res.value, wire, Some(keepdims));
      r := Ok(t);
    }

    /** The module's side of `mean`: a shape wire allocated, then `_tensor_mean`. */
    static method Averaged(mem: Foreign.Memory, id: nat, a: int, keepdims: bool, values: seq<int>)
      returns (m: Foreign.Memory, wire: ShapeWire, res: Result<nat, Foreign.ForeignError>)
      requires Foreign.Sound(mem) && id in mem.objects
      requires -1 <= a <= 1 ==> |values| == Reduction.SliceCount(Foreign.TensorOf(mem, id), a) && |values| < Foreign.MAX_ELEMS
      ensures Foreign.Sound(m)
      ensures if !(-1 <= a <= 1) then res == Err(Foreign.AxisUnsupported(a)) && Leaked(mem, m)
              else
                var s := Reduction.ReducedShape(Foreign.TensorOf(mem, id), a, keepdims);
                res.Ok? && Foreign.NewTensor(mem, m, res.value) && Wired(mem, m, wire.ptr, res.value) &&
                Foreign.TensorOf(m, res.value) == Core.Tensor(s.rows, s.cols, s.is1d, values)
    {
      m, wire := NewShapeWire(mem);
      ghost var blank := m.heap[wire.ptr];
      m, res := Foreign.Mean(m, id, a, keepdims, wire.ptr, values);
      if res.Ok? {
        WiredShape(Core.ShapeOf(Foreign.TensorOf(m, res.value)), blank);
        Reclaimed(mem.heap, wire.ptr, blank, m.heap[wire.ptr]);
      }
    }

    /**
     * `norm`: the 1-d axis guard of `mean`, the order sent as its code (L2 when missing),
     * the axis wrapped to the module's `int` parameter, then the module's shape rule with
     * its errors. The float norms are given as values.
     */
    method Norm(h: Tensor, ord: Option<NormOrd>, axis: Option<int>, keepdims: bool, values: seq<int>) returns (r: Result<Tensor, HostError>)
      requires Valid() && Active(h)
      requires var s := Matrices.NormShape(Foreign.TensorOf(mem, h.ptr), OrdCode(ord), Core.Int32(AxisOf(axis)), keepdims);
               s.Ok? ==> |values| == s.value.rows * s.value.cols && |values| < Foreign.MAX_ELEMS
      modifies this
      ensures Valid()
      ensures var s := Matrices.NormShape(Foreign.TensorOf(old(mem), old(h.ptr)), OrdCode(ord), Core.Int32(AxisOf(axis)), keepdims);
              if h.is1d && AxisOf(axis) > -1 then r == Err(AxisOn1d) && unchanged(this)
              else if s.Err? then
                r == Err(ForeignFailed(Foreign.MatrixFailed(s.error))) && Statics() == old(Statics()) && Leaked(old(mem), mem)
              else
                r.Ok? && fresh(r.value) && Statics() == Admit(old(Statics()), r.value, r.value.ptr) &&
                Foreign.NewTensor(old(mem), mem, r.value.ptr) && mem.heap == old(mem.heap) &&
                Foreign.TensorOf(mem, r.value.ptr) == Core.Tensor(s.value.rows, s.value.cols, s.value.is1d, values) &&
                r.value.Shape() == Listed(s.value) && r.value.keepdims == Some(keepdims)
    {
      var a := AxisOf(axis);
      if h.is1d && a > -1 {
        return Err(AxisOn1d);
      }
      var m, wire, res := Normed(mem, h.ptr, OrdCode(ord), Core.Int32(a), keepdims, values);
      if res.Err? {
        Advance(m);
        return Err(ForeignFailed(res.error));
      }
      var t := AdoptWired(m, res.value, wire, Some(keepdims));
      r := Ok(t);
    }

    /** The module's side of `norm`: a shape wire allocated, then `_tensor_norm`. */
    static method Normed(mem: Foreign.Memory, id: nat, ord: int, a: int, keepdims: bool, values: seq<int>)
      returns (m: Foreign.Memory, wire: ShapeWire, res: Result<nat, Foreign.ForeignError>)
      requires Foreign.Sound(mem) && id in mem.objects
      requires var s := Matrices.NormShape(Foreign.TensorOf(mem, id), ord, a, keepdims);
               s.Ok? ==> |values| == s.value.rows * s.value.cols && |values| < Foreign.MAX_ELEMS
      ensures Foreign.Sound(m)
      ensures var s := Matrices.NormShape(Foreign.TensorOf(mem, id), ord, a, keepdims);
              if s.Err? then res == Err(Foreign.MatrixFailed(s.error)) && Leaked(mem, m)
              else
                res.Ok? && Foreign.NewTensor(mem, m, res.value) && Wired(mem, m, wire.ptr, res.value) &&
                Foreign.TensorOf(m, res.value) == Core.Tensor(s.value.rows, s.value.cols, s.value.is1d, values)
    {
      m, wire := NewShapeWire(mem);
      ghost var blank := m.heap[wire.ptr];
      m, res := Foreign.Norm(m, id, ord, a, keepdims, wire.ptr, values);
      if res.Ok? {
        WiredShape(Core.ShapeOf(Foreign.TensorOf(m, res.value)), blank);
        Reclaimed(mem.heap, wire.ptr, blank, m.heap[wire.ptr]);
      }
    }

    /**
     * `matMul`: an argument that is not a tensor (None here) is refused; otherwise the
     * product, or the module's shape error when the inner dimensions differ.
     */
    method MatMul(h: Tensor, other: Option<Tensor>) returns (r: Result<Tensor, HostError>)
      requires Valid() && Active(h) && (other.Some? ==> Active(other.value))
      requires other.Some? ==> Foreign.TensorOf(mem, h.ptr).rows * Foreign.TensorOf(mem, other.value.ptr).cols < Foreign.MAX_ELEMS
      modifies this
      ensures Valid()
      ensures other.None? ==> r == Err(NotATensor) && unchanged(this)
      ensures other.Some? ==>
              var a, b := Foreign.TensorOf(old(mem), old(h.ptr)), Foreign.TensorOf(old(mem), old(other.value.ptr));
              if a.cols != b.rows then
                r == Err(ForeignFailed(Foreign.MatrixFailed(Matrices.IncompatibleShapes))) && Statics() == old(Statics()) && Leaked(old(mem), mem)
              else
                r.Ok? && fresh(r.value) && Statics() == Admit(old(Statics()), r.value, r.value.ptr) &&
                Foreign.NewTensor(old(mem), mem, r.value.ptr) && mem.heap == old(mem.heap) &&
                Foreign.TensorOf(mem, r.value.ptr) == Matrices.Product(a, b) &&
                r.value.Shape() == Listed(Core.ShapeOf(Matrices.Product(a, b)))
    {
      if other.None? {
        return Err(NotATensor);
      }
      var m, wire, res := Multiplied(mem, h.ptr, other.value.ptr);
      if res.Err? {
        Advance(m);
        return Err(ForeignFailed(res.error));
      }
      var t := AdoptWired(m, res.value, wire, None);
      r := Ok(t);
    }

    /** The module's side of `matMul`: a shape wire allocated, then `_tensor_matmul`. */
    static method Multiplied(mem: Foreign.Memory, id: nat, other: nat)
      returns (m: Foreign.Memory, wire: ShapeWire, res: Result<nat, Foreign.ForeignError>)
      requires Foreign.Sound(mem) && id in mem.objects && other in mem.objects
      requires Foreign.TensorOf(mem, id).rows * Foreign.TensorOf(mem, other).cols < Foreign.MAX_ELEMS
      requires Foreign.TensorOf(mem, id).is1d ==> Foreign.TensorOf(mem, id).rows == 1
      ensures Foreign.Sound(m)
      ensures var a, b := Foreign.TensorOf(mem, id), Foreign.TensorOf(mem, other);
              if a.cols != b.rows then res == Err(Foreign.MatrixFailed(Matrices.IncompatibleShapes)) && Leaked(mem, m)
              else
                res.Ok? && Foreign.NewTensor(mem, m, res.value) && Wired(mem, m, wire.ptr, res.value) &&
                Foreign.TensorOf(m, res.value) == Matrices.Product(a, b)
    {
      m, wire := NewShapeWire(mem);
      ghost var blank := m.heap[wire.ptr];
      m, res := Foreign.MatMul(m, id, other, wire.ptr);
      if res.Ok? {
        WiredShape(Core.ShapeOf(Foreign.TensorOf(m, res.value)), blank);
        Reclaimed(mem.heap, wire.ptr, blank, m.heap[wire.ptr]);
      }
    }

    /** `diag`: refused on a 2-d tensor; otherwise the square matrix with the values on its diagonal. */
    method Diag(h: Tensor) returns (r: Result<Tensor, HostError>)
      requires Valid() && Active(h)
      requires var t := Foreign.TensorOf(mem, h.ptr); t.is1d ==> t.cols * t.cols < Foreign.MAX_ELEMS
      modifies this
      ensures Valid()
      ensures !h.is1d ==> r == Err(DiagOn2d) && unchanged(this)
      ensures h.is1d ==>
              var d := Creation.Diagonal(Foreign.TensorOf(old(mem), old(h.ptr)));
              r.Ok? && fresh(r.value) && Statics() == Admit(old(Statics()), r.value, r.value.ptr) &&
              Foreign.NewTensor(old(mem), mem, r.value.ptr) && mem.heap == old(mem.heap) &&
              Foreign.TensorOf(mem, r.value.ptr) == d && r.value.Shape() == Listed(Core.ShapeOf(d))
    {
      if !h.is1d {
        return Err(DiagOn2d);
      }
      BorrowedWhole(mem, h);
      var m, wire, p := Diagonalized(mem, h.ptr);
      var t := AdoptWired(m, p, wire, None);
      r := Ok(t);
    }

    /** The module's side of `diag`: a shape wire allocated, then `_tensor_diag`. */
    static method Diagonalized(mem: Foreign.Memory, id: nat) returns (m: Foreign.Memory, wire: ShapeWire, p: nat)
      requires Foreign.Sound(mem) && id in mem.objects
      requires var t := Foreign.TensorOf(mem, id); |t.data| <= t.cols && |t.data| * t.cols < Foreign.MAX_ELEMS
      ensures Foreign.Sound(m) && Foreign.NewTensor(mem, m, p) && Wired(mem, m, wire.ptr, p)
      ensures Foreign.TensorOf(m, p) == Creation.Diagonal(Foreign.TensorOf(mem, id))
    {
      m, wire := NewShapeWire(mem);
      ghost var blank := m.heap[wire.ptr];
      m, p := Foreign.Diag(m, id, wire.ptr);
      WiredShape(Core.ShapeOf(Foreign.TensorOf(m, p)), blank);
      Reclaimed(mem.heap, wire.ptr, blank, m.heap[wire.ptr]);
    }

    /**
     * `pad`: the amounts read from the paddings (refused as the host refuses them), missing
     * amounts and a missing constant read as 0, then the padded copy.
     */
    method Pad(h: Tensor, paddings: Padding, constant: Option<int>) returns (r: Result<Tensor, HostError>)
      requires Valid() && Active(h)
      requires var t, a := Foreign.TensorOf(mem, h.ptr), PadArgs(h.is1d, paddings);
               a.Ok? ==> t.rows + a.value.rb + a.value.ra < Core.TWO_31 && t.cols + a.value.cb + a.value.ca < Core.TWO_31 &&
                         (t.rows + a.value.rb + a.value.ra) * (t.cols + a.value.cb + a.value.ca) < Foreign.MAX_ELEMS
      modifies this
      ensures Valid()
      ensures var a := PadArgs(h.is1d, paddings);
              if a.Err? then r == Err(a.error) && unchanged(this)
              else
                var c := if constant.Some? then constant.value else 0;
                var p := Transformations.Padded(Foreign.TensorOf(old(mem), old(h.ptr)), c, a.value.rb, a.value.ra, a.value.cb, a.value.ca);
                r.Ok? && fresh(r.value) && Statics() == Admit(old(Statics()), r.value, r.value.ptr) &&
                Foreign.NewTensor(old(mem), mem, r.value.ptr) && mem.heap == old(mem.heap) &&
                Foreign.TensorOf(mem, r.value.ptr) == p && r.value.Shape() == Listed(Core.ShapeOf(p))
    {
      var a := PadArgs(h.is1d, paddings);
      if a.Err? {
        return Err(a.error);
      }
      var c := if constant.Some? then constant.value else 0;
      var m, wire, p := Padded(mem, h.ptr, c, a.value);
      var t := AdoptWired(m, p, wire, None);
      r := Ok(t);
    }

    /** The module's side of `pad`: a shape wire allocated, then `_tensor_pad`. */
    static method Padded(mem: Foreign.Memory, id: nat, c: int, a: PadAmounts) returns (m: Foreign.Memory, wire: ShapeWire, p: nat)
      requires Foreign.Sound(mem) && id in mem.objects
      requires var t := Foreign.TensorOf(mem, id);
               t.rows + a.rb + a.ra < Core.TWO_31 && t.cols + a.cb + a.ca < Core.TWO_31 &&
               (t.rows + a.rb + a.ra) * (t.cols + a.cb + a.ca) < Foreign.MAX_ELEMS &&
               (t.is1d ==> t.rows == 1 && a.rb == 0 && a.ra == 0)
      ensures Foreign.Sound(m) && Foreign.NewTensor(mem, m, p) && Wired(mem, m, wire.ptr, p)
      ensures Foreign.TensorOf(m, p) == Transformations.Padded(Foreign.TensorOf(mem, id), c, a.rb, a.ra, a.cb, a.ca)
    {
      m, wire := NewShapeWire(mem);
      ghost var blank := m.heap[wire.ptr];
      m, p := Foreign.Pad(m, id, wire.ptr, c, a.rb, a.ra, a.cb, a.ca);
      WiredShape(Core.ShapeOf(Foreign.TensorOf(m, p)), blank);
      Reclaimed(mem.heap, wire.ptr, blank, m.heap[wire.ptr]);
    }

    /**
     * `stack`: the ids copied into a scratch block, `_tensor_stack` called, the block freed;
     * then the first matrix's rows and cols are read, which fails on an empty list after the
     * module has already made its (empty) result, left unowned.
     */
    method Stack(matrices: seq<Tensor>) returns (r: Result<Tensor, HostError>)
      requires Valid() && forall k :: 0 <= k < |matrices| ==> Active(matrices[k])
      requires Foreign.AllLive(Pointers(matrices), mem.objects)
      requires var ts := Foreign.Operands(mem, Pointers(matrices));
               SliceJoin.Fits(ts) &&
               (|ts| > 0 ==> ts[0].rows * |ts| < Core.TWO_31 && ts[0].rows * |ts| * ts[0].cols < Foreign.MAX_ELEMS)
      modifies this
      ensures Valid()
      ensures |matrices| == 0 ==> r == Err(StackEmpty) && Statics() == old(Statics()) && Grown(old(mem), mem) && mem.heap == old(mem.heap)
      ensures |matrices| > 0 ==>
              var u := SliceJoin.Stacked(Foreign.Operands(old(mem), old(Pointers(matrices))));
              r.Ok? && fresh(r.value) && Statics() == Admit(old(Statics()), r.value, r.value.ptr) &&
              Foreign.NewTensor(old(mem), mem, r.value.ptr) && mem.heap == old(mem.heap) &&
              Foreign.TensorOf(mem, r.value.ptr) == u && r.value.Shape() == [matrices[0].rows * |matrices|, matrices[0].cols]
    {
      Stackable(mem, Statics(), matrices);
      var m, p := Stacking(mem, Pointers(matrices));
      if |matrices| == 0 {
        Advance(m);
        return Err(StackEmpty);
      }
      var first := matrices[0];
      var t := Adopt(m, p, PointerShape(first.rows * |matrices|, first.cols, false), None);
      r := Ok(t);
    }

    /** The module's side of `stack`: the ids stored in a malloc'd block that is freed after the call. */
    static method Stacking(mem: Foreign.Memory, ids: seq<int>) returns (m: Foreign.Memory, p: nat)
      requires Foreign.Sound(mem) && Foreign.AllLive(ids, mem.objects)
      requires var ts := Foreign.Operands(mem, ids);
               SliceJoin.Fits(ts) &&
               (|ts| > 0 ==> ts[0].rows * |ts| < Core.TWO_31 && ts[0].rows * |ts| * ts[0].cols < Foreign.MAX_ELEMS)
      ensures Foreign.Sound(m) && Foreign.NewTensor(mem, m, p) && m.heap == mem.heap
      ensures Foreign.TensorOf(m, p) == SliceJoin.Stacked(Foreign.Operands(mem, ids))
    {
      var a;
      m, a := Foreign.Malloc(mem, |ids|);
      ghost var junk := m.heap[a];
      m := Foreign.Store(m, a, ids);
      assert m.heap[a][..|ids|] == ids;
      assert Foreign.Operands(m, ids) == Foreign.Operands(mem, ids);
      m, p := Foreign.Stack(m, a, |ids|);
      ghost var stored := m.heap[a];
      m := Foreign.Free(m, a);
      Reclaimed(mem.heap, a, junk, stored);
    }

    /** `buffer`: a view of rows * cols elements at the data pointer, which holds the tensor's elements. */
    method Buffer(h: Tensor) returns (r: Result<View, HostError>)
      requires Valid() && h in handles
      ensures h.deleted ==> r == Err(Deleted)
      ensures !h.deleted ==> r == Ok(View(h.dataPtr, h.rows * h.cols)) &&
                             h.dataPtr in mem.buffers && mem.buffers[h.dataPtr] == Foreign.TensorOf(mem, h.ptr).data
    {
      if h.deleted {
        return Err(Deleted);
      }
      BorrowedWhole(mem, h);
      r := Ok(View(h.dataPtr, h.rows * h.cols));
    }

    /** `data`: a copy of the rows * cols elements at the data pointer, the tensor's elements. */
    method Data(h: Tensor) returns (r: Result<seq<int>, HostError>)
      requires Valid() && h in handles
      ensures h.deleted ==> r == Err(Deleted)
      ensures !h.deleted ==> r == Ok(Foreign.TensorOf(mem, h.ptr).data)
    {
      if h.deleted {
        return Err(Deleted);
      }
      BorrowedWhole(mem, h);
      r := Ok(Foreign.Block(mem, h.dataPtr)[..h.rows * h.cols]);
    }

    /** `array`: the buffer read through `buffer`, returned as a number, a flat list or nested rows. */
    method Array(h: Tensor) returns (r: Result<JsValue, HostError>)
      requires Valid() && h in handles
      ensures h.deleted ==> r == Err(Deleted)
      ensures !h.deleted ==> r == Ok(ArrayOf(Foreign.TensorOf(mem, h.ptr).data, h.rows, h.cols, h.is1d, h.keepdims))
    {
      var view := Buffer(h);
      if view.Err? {
        return Err(view.error);
      }
      BorrowedWhole(mem, h);
      var data := Foreign.Block(mem, view.value.offset)[..view.value.length];
      if h.is1d {
        if h.keepdims == Some(false) {
          return Ok(if |data| > 0 then Number(data[0]) else Undefined);
        }
        return Ok(List(data));
      } else if h.keepdims == Some(false) {
        return Ok(List(data));
      }
      var rows := Unflatten(data, h.rows, h.cols);
      r := Ok(Rows(rows));
    }

    /** The nested loops of `array`: row r, column c is read from r * cols + c. */
    static method Unflatten(data: seq<int>, rows: nat, cols: nat) returns (result: seq<seq<int>>)
      requires |data| == rows * cols
      ensures result == Nest(data, rows, cols)
    {
      result := [];
      for r := 0 to rows
        invariant r * cols <= |data| && result == Nest(data[..r * cols], r, cols)
      {
        RowMajor.MulLe(r + 1, rows, cols);
        var row := [];
        for c := 0 to cols
          invariant row == data[r * cols..r * cols + c]
        {
          row := row + [data[r * cols + c]];
        }
        ghost var next := data[..(r + 1) * cols];
        assert next[..r * cols] == data[..r * cols] && next[r * cols..] == row;
        result := result + [row];
      }
      assert data[..rows * cols] == data;
    }

    /**
     * `bounds`: a four-slot scratch block malloc'd, `_tensor_get_bounds` called, the four
     * values read back and the block freed: x within [xmin, xmax] for every point, both
     * ends attained, and y within [ymin, ymax] when the points have a second column. As the
     * kernel seeds the y range with the first x, that x always lies in [ymin, ymax] too.
     */
    method Bounds(h: Tensor) returns (b: Box)
      requires Valid() && Active(h) && |Foreign.TensorOf(mem, h.ptr).data| > 0
      modifies this
      ensures Valid() && Statics() == old(Statics())
      ensures mem.objects == old(mem.objects) && mem.buffers == old(mem.buffers) && mem.heap == old(mem.heap)
      ensures Core.AsWrittenBox(Foreign.TensorOf(old(mem), old(h.ptr)), Core.Bounds(b.xmin, b.ymin, b.xmax, b.ymax))
    {
      var m;
      m, b := Measured(mem, h.ptr);
      Advance(m);
    }

    /**
     * The module's side of `bounds`. The four slots are read before the block is freed;
     * the host reads them through its view only after `_free`.
     */
    static method Measured(mem: Foreign.Memory, id: nat) returns (m: Foreign.Memory, b: Box)
      requires Foreign.Sound(mem) && id in mem.objects && |Foreign.TensorOf(mem, id).data| > 0
      ensures Foreign.Sound(m) && m.objects == mem.objects && m.buffers == mem.buffers && m.heap == mem.heap
      ensures Core.AsWrittenBox(Foreign.TensorOf(mem, id), Core.Bounds(b.xmin, b.ymin, b.xmax, b.ymax))
    {
      var a;
      m, a := Foreign.Malloc(mem, 4);
      ghost var junk := m.heap[a];
      m := Foreign.GetBounds(m, id, a);
      var w := m.heap[a];
      b := Box(w[0], w[1], w[2], w[3]);
      m := Foreign.Free(m, a);
      Reclaimed(mem.heap, a, junk, w);
    }

    /** Static `zeros`: the shape inferred as the constructor infers it, then a tensor of that shape with nothing written. */
    method Zeros(dims: seq<nat>) returns (t: Tensor)
      requires Valid() && Allocatable(InferredShape(NullData, Dims(dims)).value)
      modifies this
      ensures Valid() && fresh(t) && Statics() == Admit(old(Statics()), t, t.ptr)
      ensures Foreign.NewTensor(old(mem), mem, t.ptr) && mem.heap == old(mem.heap)
      ensures var s := InferredShape(NullData, Dims(dims)).value;
              t.Shape() == Listed(s) && Foreign.TensorOf(mem, t.ptr) == Core.Zeros(s.rows, s.cols, s.is1d)
    {
      var s := InferredShape(NullData, Dims(dims)).value;
      var r := Construct(NullData, Dims(Listed(s)));
      t := r.value;
    }

    /** Static `ones`: as `zeros`, with an array of ones of rows * cols elements written. */
    method Ones(dims: seq<nat>) returns (t: Tensor)
      requires Valid() && Allocatable(InferredShape(NullData, Dims(dims)).value)
      modifies this
      ensures Valid() && fresh(t) && Statics() == Admit(old(Statics()), t, t.ptr)
      ensures Foreign.NewTensor(old(mem), mem, t.ptr) && mem.heap == old(mem.heap)
      ensures var s := InferredShape(NullData, Dims(dims)).value;
              t.Shape() == Listed(s) && Foreign.TensorOf(mem, t.ptr) == Filled(s.rows, s.cols, s.is1d, 1)
    {
      var s := InferredShape(NullData, Dims(dims)).value;
      var r := Construct(Flat(Filled(s.rows, s.cols, s.is1d, 1).data), Dims(Listed(s)));
      t := r.value;
    }

    /**
     * Static `identity`: refused for a 1-d shape; otherwise ones on the leading diagonal of a
     * zeroed rows x cols buffer, made into a tensor of that shape.
     */
    method Identity(dims: seq<nat>) returns (r: Result<Tensor, HostError>)
      requires Valid() && Allocatable(InferredShape(NullData, Dims(dims)).value)
      modifies this
      ensures Valid()
      ensures var s := InferredShape(NullData, Dims(dims)).value;
              if s.is1d then r == Err(IdentityOn1d) && unchanged(this)
              else
                r.Ok? && fresh(r.value) && Statics() == Admit(old(Statics()), r.value, r.value.ptr) &&
                Foreign.NewTensor(old(mem), mem, r.value.ptr) && mem.heap == old(mem.heap) &&
                r.value.Shape() == [s.rows, s.cols] &&
                Foreign.TensorOf(mem, r.value.ptr) == Core.Build(s.rows, s.cols, false, Creation.EyeCell)
    {
      var s := InferredShape(NullData, Dims(dims)).value;
      if s.is1d {
        return Err(IdentityOn1d);
      }
      var eye := EyeBuffer(s.rows, s.cols);
      r := Construct(Typed(eye), Dims([s.rows, s.cols]));
    }

    /**
     * The loop of `identity` over a zeroed typed array: a one at i * cols + i for every
     * column i, where a store past the end is dropped as a typed array drops it.
     */
    static method EyeBuffer(rows: nat, cols: nat) returns (eye: seq<int>)
      ensures eye == Core.Build(rows, cols, false, Creation.EyeCell).data
    {
      RowMajor.MulLe(0, rows, cols);
      var buf := new int[rows * cols](_ => 0);
      ghost var t := Core.Tensor(rows, cols, false, []);
      Core.BuildSame(rows, cols, false, (r: nat, c: nat) => if r == c && c < 0 then 1 else 0, (r: nat, c: nat) => 0);
      assert buf[..] == Creation.EyeStage(t, 0);
      for i := 0 to cols
        invariant buf[..] == Creation.EyeStage(t, i)
      {
        var k := i * cols + i;
        if k < buf.Length {
          EyeGrows(t, i);
          buf[k] := 1;
        } else {
          EyeBeyond(t, i);
        }
      }
      Core.BuildSame(rows, cols, false, (r: nat, c: nat) => if r == c && c < cols then 1 else 0, Creation.EyeCell);
      eye := buf[..];
    }

    /** Instance `zeros`: a tensor of the receiver's shape with nothing written. */
    method ZerosLike(h: Tensor) returns (t: Tensor)
      requires Valid() && h in handles && Allocatable(Core.Shape(h.rows, h.cols, h.is1d)) && (h.is1d ==> h.rows == 1)
      modifies this
      ensures Valid() && fresh(t) && Statics() == Admit(old(Statics()), t, t.ptr)
      ensures Foreign.NewTensor(old(mem), mem, t.ptr) && mem.heap == old(mem.heap)
      ensures t.Shape() == h.Shape() && Foreign.TensorOf(mem, t.ptr) == Core.Zeros(h.rows, h.cols, h.is1d)
    {
      var r := Construct(NullData, Dims(if h.is1d then [h.cols] else [h.rows, h.cols]));
      t := r.value;
    }

    /** Instance `ones`: a typed array of ones written into a tensor of the receiver's shape. */
    method OnesLike(h: Tensor) returns (t: Tensor)
      requires Valid() && h in handles && Allocatable(Core.Shape(h.rows, h.cols, h.is1d)) && (h.is1d ==> h.rows == 1)
      modifies this
      ensures Valid() && fresh(t) && Statics() == Admit(old(Statics()), t, t.ptr)
      ensures Foreign.NewTensor(old(mem), mem, t.ptr) && mem.heap == old(mem.heap)
      ensures t.Shape() == h.Shape() && Foreign.TensorOf(mem, t.ptr) == Filled(h.rows, h.cols, h.is1d, 1)
    {
      var r := Construct(Typed(Filled(h.rows, h.cols, h.is1d, 1).data), Dims(if h.is1d then [h.cols] else [h.rows, h.cols]));
      t := r.value;
    }
  }
}
