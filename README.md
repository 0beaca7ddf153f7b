# fast-tensor, modelled in Dafny

fast-tensor is a small matrix library for JavaScript. Its numerics live in a
WebAssembly module compiled from C++. The `Tensor` class of `src/ts/Tensor.ts`
holds handles to objects in that module and tracks which of them are alive.

This project models two layers of that system and proves properties of both.

- The C++ shape and layout kernels of `src/cpp/core/*.cpp`, with integer
  elements:
  - row-major storage;
  - reshape with inference of a missing dimension;
  - pad, flatten, reverse, stack, transpose, matrix product, eye and diag;
  - broadcasting element-wise arithmetic, clip and square;
  - reductions along an axis, arg-max/arg-min;
  - the shape wire and the bounding box.
- The host side of `Tensor.ts` and `Interface.ts`:
  - the handle lifecycle: construction, shape inference, `setData`, `delete`,
    the live-handle counter;
  - the scope arena: `scope`, `beginScope`, `endScope`, the tombstoning of
    captured handles and their batch deletion;
  - the `ShapeWire` and `InputArgs` scratch blocks, and the kernel calls made
    through them.

Modules follow the source files:

| module | models |
|---|---|
| `Wrappers` | `Option` and `Result` |
| `RowMajor` | index arithmetic of row-major storage |
| `Core` | `core.cpp`: the tensor record, the shape wire, `get_bounds` |
| `Folds` | the accumulator loops shared by the reductions |
| `Transformations` | `transformations.cpp` |
| `SliceJoin` | `slicejoin.cpp` |
| `Creation` | `creation.cpp` |
| `Matrices` | `matrices.cpp` |
| `Arithmetic` | `arithmetic.cpp` |
| `Reduction` | `reduction.cpp` |
| `BasicMath` | `basicmath.cpp` |
| `Foreign` | the module's `extern "C"` entry points, over module memory |
| `Handles` | the `Tensor`, `ShapeWire` and `InputArgs` objects of `Tensor.ts` |
| `Host` | the static side of `Tensor`: arena, flag, counter and memory |

How the layers are modelled:

- **Module memory.** It is the value `Foreign.Memory`. It has three parts:
  - the object table, from tensor id to shape and buffer;
  - the shared data buffers, standing for `shared_ptr<vector>`;
  - the malloc heap.
- **Kernels.** Each kernel loop is a method over an `array<int>`. It is proved
  equal to a specification function, and the properties are lemmas about that
  function.
- **Host state.** A handle is the class `Handles.Tensor`, whose fields the host
  updates in place. The static fields are the class `Host.Registry`. Its
  `Valid()` ties them to the memory:
  - every live handle owns its object;
  - the counter equals the number of live handles;
  - handles that share a buffer see the same data.

Elements are unbounded integers. C++ `size_t` and the `int` slots of the shape
wire are wrapped explicitly, with `Core.SizeT` and `Core.Int32`. The kernels
whose results are floating point (`div`, `mean`, `norm`) are modelled in a
particular way. Their dispatch, shapes and errors are modelled. The numeric
results are supplied as a parameter.

Where the code is evidently wrong, the model states both versions (see
Findings). Whether the module's entry points and the host run the code as
written or the corrected version depends on the case:

- **`get_bounds`.** `tensor_get_bounds`, and `bounds` through it, run the code
  as written, with the y range seeded from the first x.
- **`arg_max`, `arg_min`.** The kernels are modelled both ways. No entry point
  of this model calls them.
- **`flatten`.** The host records a 1 x (rows * cols) handle, but
  `tensor_flatten` keeps the object's rows and cols. The entry point and the
  host run the corrected kernel (see "Left out").
- **`reshape`.** `tensor_reshape` accepts zero and negative dimensions that
  give an object whose shape does not match its buffer. The entry point and
  the host run the corrected reshape, which refuses them (see "Left out").
  The host's `reshape` also sends a missing cols as 0, where the kernel
  expects its -2 alias for "not given". The host here sends -2, so
  `reshape([-1])` flattens as the reshape tests expect.
- **`div`.** The host's `div` calls the four-parameter `tensor_div` with three
  arguments. The rest of the model uses the evidently intended call.
- **Thrown errors.**
  - When a reshaping or arithmetic kernel throws, the host never frees its
    scratch block. The model states this as `Handles.Leaked`.
  - `stack` of no matrices fails only after the module has made its empty
    result. That result is left unowned.

## Model

| member | source | states |
|---|---|---|
| `Core.Zeros` | src/cpp/core/core.cpp:11-13 | the zero constructor gives a well-formed rows x cols tensor whose every element is 0 |
| `Core.SizeT` | src/cpp/core/transformations.cpp:78-81 | a `static_cast<size_t>` is the value modulo 2^32, and the identity on values that fit |
| `Core.Int32` | src/cpp/core/core.cpp:5-9 | an `int` slot holds the value modulo 2^32 in the signed range, and the identity on values that fit |
| `Core.WriteShapeWire` | src/cpp/core/core.cpp:5-9 | `update_shape_wire` writes rows, cols and the 1-d flag into the first three slots and leaves the rest of the block alone |
| `Core.ScanBounds` | src/cpp/core/core.cpp:72-88 | the scan over the points, from a given seed, yields the running min and max of the x column and the y column |
| `Core.GetBoundsAsWritten` | src/cpp/core/core.cpp:72-88 | `get_bounds` as written: all four bounds seeded from `vec[0]`, the x of the first point |
| `Core.AsWrittenBoxHolds` | src/cpp/core/core.cpp:72-88 | the box of `get_bounds` as written: every x in [xmin, xmax] with both ends attained, every y in [ymin, ymax] with a second column, and the first element in [ymin, ymax], equal to both without a second column |
| `Core.BoundsSeedLeak` | src/cpp/core/core.cpp:74-84 | for the points (0,5), (1,6) the code reports ymin 0, which is no y of any point |
| `Core.GetBounds` | src/cpp/core/core.cpp:72-88 | corrected `get_bounds`: every x lies in [xmin, xmax] and both ends are x values of points; with a second column the same holds for y; otherwise ymin = ymax = the first element |
| `Transformations.ReshapeAsWritten` | src/cpp/core/transformations.cpp:24-82 | `reshape` as written, with its guards, its inference of a -1 dimension and its casts to `size_t`; an accepted result keeps the data |
| `Transformations.ReshapeNegativeDimSlipsThrough` | src/cpp/core/transformations.cpp:32-49 | 2 x -5 on four elements passes every guard and gives cols 2^32 - 5, a tensor that is not well formed |
| `Transformations.Reshape` | src/cpp/core/transformations.cpp:24-82 | an accepted reshape is well formed and keeps the data; wherever `Transformations.Unchecked` is false it agrees with the code as written. `Unchecked` holds for a negative dimension that is no inference marker, and for two explicit dimensions whose product is not the element count |
| `Transformations.ReshapeZeroDimSlipsThrough` | src/cpp/core/transformations.cpp:32-49 | 4 x 0 on four elements passes every guard as written and gives a tensor of no cells over four elements; the corrected reshape refuses it with the counts |
| `Transformations.ReshapeInfers` | src/cpp/core/transformations.cpp:51-81 | -1 x -2 flattens to 1-d; -1 with a dividing count infers the other side; exact dimensions are taken as given |
| `Transformations.ReshapeFails` | src/cpp/core/transformations.cpp:32-75 | each guard's error: negative shape, a zero beside an inferred side, a mismatched product, a count that does not divide |
| `Transformations.Padded` | src/cpp/core/transformations.cpp:4-21 | the padded tensor is well formed, (rows + before + after) x (cols + before + after), and keeps the 1-d flag |
| `Transformations.PadPlacesSource` | src/cpp/core/transformations.cpp:4-21 | element (i, j) of the source sits at (rb + i, cb + j); every other cell holds the constant |
| `Transformations.PadZeroIsIdentity` | src/cpp/core/transformations.cpp:4-21 | padding by zero on every side gives back the tensor |
| `Transformations.Pad` | src/cpp/core/transformations.cpp:4-21 | the constant-filled buffer with the rows copied in is the padded tensor |
| `Transformations.PadRow` | src/cpp/core/transformations.cpp:14-18 | one pass of the row loop copies one source row into place |
| `SliceJoin.ReverseRange` | src/cpp/core/slicejoin.cpp:8-21 | `std::reverse` on [lo, hi) leaves the array mirrored in that range and unchanged elsewhere |
| `SliceJoin.SwapRanges` | src/cpp/core/slicejoin.cpp:11-17 | `std::swap_ranges` exchanges two disjoint blocks and leaves the rest |
| `SliceJoin.ReversedAt` | src/cpp/core/slicejoin.cpp:3-24 | axis -1 reverses the flat data, axis 0 the row order, axis 1 each row; any other axis leaves the tensor as it is |
| `SliceJoin.ReverseTwice` | src/cpp/core/slicejoin.cpp:3-24 | reversing twice along the same axis gives back the tensor |
| `SliceJoin.Reverse` | src/cpp/core/slicejoin.cpp:3-24 | the in-place loops on the copy compute the reversed tensor |
| `SliceJoin.ConcatBlock` | src/cpp/core/slicejoin.cpp:31-52 | block b of the concatenation is the data of the b-th tensor |
| `SliceJoin.StackSameShape` | src/cpp/core/slicejoin.cpp:31-52 | stacking n tensors of one shape gives an (n * rows) x cols tensor of their data in order |
| `SliceJoin.StackBlocks` | src/cpp/core/slicejoin.cpp:31-52 | the b-th block of the stacked data is the b-th matrix |
| `SliceJoin.CopyInto` | src/cpp/core/slicejoin.cpp:47-49 | `std::copy` writes the values at the offset, returns the next offset and leaves the rest |
| `SliceJoin.Stack` | src/cpp/core/slicejoin.cpp:31-52 | the copy loop over the instances yields the stacked tensor |
| `Creation.Eyed` | src/cpp/core/creation.cpp:5-11 | the result of `eye` keeps the shape |
| `Creation.EyeAt` | src/cpp/core/creation.cpp:5-11 | cell (i, j) of `eye` is 1 on the leading diagonal and 0 elsewhere |
| `Creation.Eye` | src/cpp/core/creation.cpp:5-11 | the loop setting ones on a zeroed buffer computes `eye` |
| `Creation.Diagonal` | src/cpp/core/creation.cpp:14-23 | `diag` gives a 2-d tensor of \|data\| rows and the source's columns |
| `Creation.DiagOfVector` | src/cpp/core/creation.cpp:14-23 | for a vector, `diag` is square with the values on the diagonal and 0 elsewhere |
| `Creation.Diag` | src/cpp/core/creation.cpp:14-23 | the loop computes `diag` |
| `Matrices.Transposed` | src/cpp/core/matrices.cpp:4-17 | the transpose is cols x rows with the 1-d flag kept |
| `Matrices.TransposedAt` | src/cpp/core/matrices.cpp:4-17 | cell (j, i) of the transpose is cell (i, j) of the source |
| `Matrices.TransposeTwice` | src/cpp/core/matrices.cpp:4-17 | transposing twice gives back the tensor |
| `Matrices.Transpose` | src/cpp/core/matrices.cpp:4-17 | the nested loop computes the transpose |
| `Matrices.Product` | src/cpp/core/matrices.cpp:115-140 | the product is a.rows x b.cols |
| `Matrices.ProductAt` | src/cpp/core/matrices.cpp:115-140 | cell (i, j) of the product is the dot product of row i of a and column j of b |
| `Matrices.EyeIsLeftIdentity` | src/cpp/core/matrices.cpp:115-140 | `eye` times m is m |
| `Matrices.ProductTransposed` | src/cpp/core/matrices.cpp:115-140 | the transpose of a * b is transpose(b) * transpose(a) |
| `Matrices.Accumulate` | src/cpp/core/matrices.cpp:134-136 | the inner loop adds the dot product into one cell and nothing else |
| `Matrices.MatMul` | src/cpp/core/matrices.cpp:115-140 | mismatched inner dimensions are refused; otherwise the triple loop computes the product |
| `Matrices.NormShape` | src/cpp/core/matrices.cpp:20-112 | succeeds exactly for axis 0, axis 1, or axis -1 with an order in 0..2; an axis outside -1..1 and an unsupported order are refused; the result shape collapses the reduced axis; 1-d exactly when the axis is -1 without keepdims |
| `Arithmetic.Combined` | src/cpp/core/arithmetic.cpp:4-29 | the broadcast dispatch refuses every operand size other than 1, cols or rows * cols; the result keeps the shape |
| `Arithmetic.CombinedAt` | src/cpp/core/arithmetic.cpp:4-85 | each cell combines the source cell with the scalar, the row operand's j-th value or the full operand's own cell |
| `Arithmetic.SubUndoesAdd` | src/cpp/core/arithmetic.cpp:4-57 | subtracting the operand after adding it gives back the tensor |
| `Arithmetic.ApplyScalar` | src/cpp/core/arithmetic.cpp:8-12 | the scalar loop combines every element with the scalar |
| `Arithmetic.ApplyRow` | src/cpp/core/arithmetic.cpp:13-18 | the row-broadcast loop combines element m with operand m mod cols |
| `Arithmetic.ApplyFull` | src/cpp/core/arithmetic.cpp:19-24 | the element-wise loop combines element m with operand m |
| `Arithmetic.Arith` | src/cpp/core/arithmetic.cpp:4-85 | `add`, `sub`, `mul` compute the broadcast combination or its error |
| `Arithmetic.Paired` | src/cpp/core/arithmetic.cpp:123-139 | tensors of different shapes are refused; otherwise the result keeps the shape |
| `Arithmetic.ScalarIsConstantTensor` | src/cpp/core/arithmetic.cpp:142-153 | the scalar forms equal the tensor forms against a constant tensor |
| `Arithmetic.PairedMeaning` | src/cpp/core/arithmetic.cpp:123-272 | maximum and minimum bound both operands, pick one and commute; the squared difference is non-negative and 0 exactly on equal elements |
| `Arithmetic.PairTensors` | src/cpp/core/arithmetic.cpp:123-272 | the loops of `maximum`, `minimum` and `squared_diff` compute the pairing |
| `Arithmetic.PairScalar` | src/cpp/core/arithmetic.cpp:142-287 | the scalar loops compute the scalar pairing |
| `BasicMath.Clipped` | src/cpp/core/basicmath.cpp:18-29 | clipping keeps the shape and the element count |
| `BasicMath.ClipMeaning` | src/cpp/core/basicmath.cpp:18-29 | above upper gives upper, below lower gives lower; in range is kept; with lower <= upper the result lies in the range |
| `BasicMath.ClipIdempotent` | src/cpp/core/basicmath.cpp:18-29 | clipping twice is clipping once |
| `BasicMath.ClipIsMaxThenMin` | src/cpp/core/basicmath.cpp:18-29 | clipping is `maximum` with lower, then `minimum` with upper |
| `BasicMath.ClipInverted` | src/cpp/core/basicmath.cpp:18-29 | with upper < lower, the upper test wins and every other element becomes lower |
| `BasicMath.Clip` | src/cpp/core/basicmath.cpp:18-29 | the loop computes the clipped tensor |
| `BasicMath.SquareIsSquaredDiffZero` | src/cpp/core/basicmath.cpp:78-85 | squaring is the squared difference with 0; squares are non-negative and 0 only at 0 |
| `BasicMath.Square` | src/cpp/core/basicmath.cpp:78-85 | the loop computes the squared tensor |
| `Folds.SettledStays` | src/cpp/core/reduction.cpp:4-93 | once `all` meets 0 or `any` meets a non-zero, the rest of the slice cannot change the answer |
| `Folds.MinFoldBounds` | src/cpp/core/reduction.cpp:262-310 | the running minimum is at most the seed and every element, and it is the seed or an element |
| `Folds.MaxFoldBounds` | src/cpp/core/reduction.cpp:166-215 | the running maximum is at least the seed and every element, and it is the seed or an element |
| `Folds.AllMeaning` | src/cpp/core/reduction.cpp:4-47 | `all` is 1 exactly when every element is non-zero |
| `Folds.AnyMeaning` | src/cpp/core/reduction.cpp:50-93 | `any` is 1 exactly when some element is non-zero |
| `Folds.MaxMeaning` | src/cpp/core/reduction.cpp:166-215 | over finite values, `max` of a non-empty slice is an element not below any other; of an empty slice, the lowest float |
| `Folds.MinMeaning` | src/cpp/core/reduction.cpp:262-310 | over finite values, `min` of a non-empty slice is an element not above any other; of an empty slice, infinity |
| `Folds.SumMeaning` | src/cpp/core/reduction.cpp:313-352 | the `sum` accumulator is the sum of the slice |
| `Folds.ProdMeaning` | src/cpp/core/reduction.cpp:355-394 | the `prod` accumulator is the product of the slice |
| `Reduction.ColumnIsStrided` | src/cpp/core/reduction.cpp:22-31 | the axis-0 loop steps through column j with stride cols |
| `Reduction.RowIsStrided` | src/cpp/core/reduction.cpp:33-43 | the axis-1 loop steps through row i with stride 1 |
| `Reduction.FoldSlice` | src/cpp/core/reduction.cpp:4-394 | the accumulator loop over a strided slice computes the fold |
| `Reduction.Slice` | src/cpp/core/reduction.cpp:4-47 | axis 0 slices are columns and axis 1 slices are rows |
| `Reduction.Reduced` | src/cpp/core/reduction.cpp:4-394 | the reduced shape collapses the axis, and there is one value per slice |
| `Reduction.ReducedWellFormed` | src/cpp/core/reduction.cpp:4-47 | the result is consistent exactly when the axis is -1..1 or the tensor is empty; any other axis leaves rows x cols with no data |
| `Reduction.ReducedChecked` | src/cpp/core/reduction.cpp:4-47 | refusing the unsupported axes leaves exactly the well-formed reductions |
| `Reduction.Reduce` | src/cpp/core/reduction.cpp:4-394 | the loops over the slices compute the reduction |
| `Reduction.AllCell` | src/cpp/core/reduction.cpp:4-47 | each cell of `all` is 1 exactly when its slice has no zero |
| `Reduction.AnyCell` | src/cpp/core/reduction.cpp:50-93 | each cell of `any` is 1 exactly when its slice has a non-zero |
| `Reduction.MaxCell` | src/cpp/core/reduction.cpp:166-215 | each cell of `max` is an element of its slice and not below any other |
| `Reduction.MinCell` | src/cpp/core/reduction.cpp:262-310 | each cell of `min` is an element of its slice and not above any other |
| `Reduction.EmptyExtremes` | src/cpp/core/reduction.cpp:166-310 | an empty slice gives the lowest float for `max` and infinity for `min` |
| `Reduction.SumProdCell` | src/cpp/core/reduction.cpp:313-394 | each cell of `sum` and `prod` is the sum or product of its slice |
| `Reduction.BestIndex` | src/cpp/core/reduction.cpp:101-105 | the first index of the best element lies in the slice |
| `Reduction.BestIndexMeaning` | src/cpp/core/reduction.cpp:101-105 | no element beats the chosen one, and it beats every earlier one, so it is the first best |
| `Reduction.LastRise` | src/cpp/core/reduction.cpp:106-126 | the index the axis loops return lies in the slice |
| `Reduction.LastRiseMeaning` | src/cpp/core/reduction.cpp:106-126 | the axis loops return the last index whose element beats its predecessor, or 0 |
| `Reduction.ArgReducedAsWritten` | src/cpp/core/reduction.cpp:96-163 | `arg_max` and `arg_min` as written: one index for a 1-d tensor, one per slice otherwise, shaped by the axis |
| `Reduction.ArgCellAsWritten` | src/cpp/core/reduction.cpp:106-126 | each cell is the last rise of its slice |
| `Reduction.ArgMaxRiseIsNotMax` | src/cpp/core/reduction.cpp:106-116 | on the column [0, 5, 3, 4], `arg_max` along axis 0 answers 3, whose element is below the one at 1 |
| `Reduction.ArgReduced` | src/cpp/core/reduction.cpp:96-163 | the corrected arg reduction has the same shape |
| `Reduction.ArgCell` | src/cpp/core/reduction.cpp:96-163 | each cell is the first index of a best element of its slice |
| `Reduction.BestScan` | src/cpp/core/reduction.cpp:101-105 | the scan over a strided slice returns the first best index |
| `Reduction.RiseScan` | src/cpp/core/reduction.cpp:106-126 | the axis loop over a strided slice returns the last rise |
| `Reduction.ArgReduceAsWritten` | src/cpp/core/reduction.cpp:96-163 | the loops as written compute the as-written arg reduction |
| `Reduction.ArgReduce` | src/cpp/core/reduction.cpp:96-163 | the corrected loops compute the corrected arg reduction |
| `Reduction.ArgFlat` | src/cpp/core/reduction.cpp:101-105 | on a 1-d tensor both versions agree and answer the first best index |
| `Foreign.Instantiate` | src/cpp/core/core.cpp:97-99 | a freshly instantiated module holds no objects, buffers or blocks |
| `Foreign.TensorOf` | src/cpp/core/core.cpp:18-20 | an object reads as a well-formed tensor whose shape is the object's and whose data is its shared buffer |
| `Foreign.DataPtr` | src/cpp/core/core.cpp:124-126 | `tensor_get_data_ptr` names a buffer of rows * cols elements |
| `Foreign.Malloc` | src/ts/Interface.ts:41-43 | `_malloc` gives an unused address holding a block of the requested size, with nothing promised about its contents, and changes nothing else |
| `Foreign.Free` | src/ts/Interface.ts:41-43 | `_free` removes exactly that block |
| `Foreign.Create` | src/cpp/core/core.cpp:97-99 | `tensor_create` adds one object over a new zero buffer of rows * cols |
| `Foreign.Delete` | src/cpp/core/core.cpp:102-104 | `tensor_delete` removes the object; its buffer goes only when no other object holds it |
| `Foreign.BatchDelete` | src/cpp/core/core.cpp:107-114 | `tensor_batch_delete` removes every object named by a non-zero id in the block and skips the zeros |
| `Foreign.NotYetDeleted` | src/cpp/core/core.cpp:107-114 | in a block of distinct live ids, each non-zero id is still live when the loop reaches it |
| `Foreign.GetShape` | src/cpp/core/core.cpp:116-121 | `tensor_get_shape` writes the object's shape into the block and changes nothing else |
| `Foreign.GetBounds` | src/cpp/core/core.cpp:139-145 | `tensor_get_bounds` writes the bounds of `get_bounds` as written into the block. Every x lies in [xmin, xmax] and both ends are x values of points. With a second column every y lies in [ymin, ymax]. The first element, the first x, always lies in [ymin, ymax], and without a second column ymin = ymax = that x |
| `Foreign.Clone` | src/cpp/core/creation.cpp:26-28 | `tensor_clone` adds an object sharing the buffer and the shape |
| `Foreign.Flatten` | src/cpp/core/transformations.cpp:92-94 | the corrected `tensor_flatten` adds a 1 x (rows * cols) object over the same buffer |
| `Foreign.FlattenedAsWritten` | src/cpp/core/transformations.cpp:92-94 | the object `tensor_flatten` makes as written shares the buffer and is 1-d |
| `Foreign.FlattenKeepsRows` | src/cpp/core/transformations.cpp:92-94 | flattening a 2 x 2 object as written leaves 2 rows, so `diag` of it writes past a buffer of cols * cols |
| `Foreign.Reshape` | src/cpp/core/transformations.cpp:96-105 | `tensor_reshape` returns the reshaped alias and writes its shape to the wire, or throws and changes nothing |
| `Foreign.ReshapeFits` | src/cpp/core/transformations.cpp:78-81 | an accepted reshape has dimensions that fit the wire |
| `Foreign.Pad` | src/cpp/core/transformations.cpp:85-90 | `tensor_pad` adds the padded tensor and writes its shape to the wire |
| `Foreign.Arith` | src/cpp/core/arithmetic.cpp:290-300 | `tensor_add`, `tensor_sub`, `tensor_mul` add the combined tensor, or throw the dispatch's error and change nothing |
| `Foreign.Div` | src/cpp/core/arithmetic.cpp:88-120 | `tensor_div` with its operand in place has the dispatch and errors of `add`; the result holds the given quotients |
| `Foreign.DivAsCalled` | src/cpp/core/arithmetic.cpp:302-304 | `tensor_div` reached with the host's three arguments sees an operand of size 0: it refuses every tensor with elements and copies an empty one |
| `Foreign.DivSizeDropped` | src/ts/Tensor.ts:270-275 | dividing [1, 2, 3, 4] by 2 is accepted with the operand the host means and refused with the empty one it sends |
| `Foreign.Square` | src/cpp/core/basicmath.cpp:117 | `tensor_square` adds the squared tensor |
| `Foreign.Mean` | src/cpp/core/basicmath.cpp:105-115 | `tensor_mean` adds a tensor of the reduced shape holding the given means and writes that shape to the wire |
| `Foreign.Norm` | src/cpp/core/matrices.cpp:147-157 | `tensor_norm` refuses as `norm` does, or adds a tensor of the norm shape holding the given values and writes that shape to the wire |
| `Foreign.MatMul` | src/cpp/core/matrices.cpp:159-163 | `tensor_matmul` refuses mismatched inner dimensions, or adds the product and writes its shape to the wire |
| `Foreign.Reverse` | src/cpp/core/slicejoin.cpp:27-29 | `tensor_reverse` adds the reversed tensor |
| `Foreign.Transpose` | src/cpp/core/matrices.cpp:143-145 | `tensor_transpose` adds the transposed tensor |
| `Foreign.Diag` | src/cpp/core/creation.cpp:34-38 | `tensor_diag` adds the diagonal tensor and writes its shape to the wire |
| `Foreign.Operands` | src/cpp/core/slicejoin.cpp:31-52 | the ids in the block name the tensors to stack, in order |
| `Foreign.Stack` | src/cpp/core/slicejoin.cpp:31-52 | `tensor_stack` adds the stacked tensor of the objects the block names |
| `Handles.JoinedLength` | src/ts/Tensor.ts:73-75 | flattening rows of equal length gives rows * cols elements |
| `Handles.JoinedAt` | src/ts/Tensor.ts:73-75 | element (r, c) of nested rows lands at r * cols + c |
| `Handles.InferredShape` | src/ts/Tensor.ts:87-120 | `_inferShape` fails exactly on jagged nested rows without an explicit shape, with that error; a 1-d shape has one row |
| `Handles.ConstructorRefusal` | src/ts/Tensor.ts:65-93 | the constructor's `setData` refuses as `setData` does; against an empty shape array, whose rows and cols stay undefined, it refuses every array, because no length equals NaN |
| `Handles.InferShape` | src/ts/Tensor.ts:87-120 | the column-count loop computes the inferred shape |
| `Handles.ShapeRoundTrip` | src/ts/Tensor.ts:88-93 | an explicit shape of one or two dimensions is taken as given |
| `Handles.InferredFromData` | src/ts/Tensor.ts:94-119 | without a shape, flat data is 1-d of its length, and consistent nested rows are rows x cols with rows * cols elements |
| `Handles.SetDataError` | src/ts/Tensor.ts:65-85 | `setData` refuses data that is not an array, and arrays whose element count is not rows * cols, with the counts |
| `Handles.Rejected` | src/ts/Tensor.ts:40-48 | the constructor refuses falsy data, a shape that is not an array and any shape inference failure, and nothing else |
| `Handles.Filled` | src/ts/Tensor.ts:354-360 | `fill(1)` gives a tensor whose every element is the value |
| `Handles.Tensor.constructor` | src/ts/Tensor.ts:40-59 | a new handle holds its id, its data pointer and its shape and starts live |
| `Handles.Tensor.Bury` | src/ts/Tensor.ts:188-189 | tombstoning resets the id to 0 and marks the handle deleted |
| `Handles.Tensor.Shape` | src/ts/Tensor.ts:146-151 | `shape` is [cols] for a 1-d handle and [rows, cols] otherwise |
| `Handles.ShapeWire.Sync` | src/ts/Tensor.ts:546-560 | `sync` reads rows, cols and the flag from the block and frees it |
| `Handles.NewShapeWire` | src/ts/Tensor.ts:539-541 | a new wire is a fresh block of three slots, with nothing promised about their contents |
| `Handles.Captured` | src/ts/Tensor.ts:184-192 | the handles captured by `scope` are live arena members other than the result |
| `Handles.CapturedMeaning` | src/ts/Tensor.ts:184-192 | a handle is captured exactly when it is in the arena, is not the result and is not deleted |
| `Handles.CapturedMembers` | src/ts/Tensor.ts:184-192 | the same, for every handle at once |
| `Handles.CapturedAppend` | src/ts/Tensor.ts:184-192 | capturing an arena in two parts is capturing it whole |
| `Handles.CapturedDistinct` | src/ts/Tensor.ts:184-192 | a duplicate-free arena captures no handle twice |
| `Handles.CapturedOwned` | src/ts/Tensor.ts:184-192 | in a coherent registry each captured id is owned by the handle that holds it, so the ids are distinct |
| `Handles.Enrolled` | src/ts/Tensor.ts:55-58 | counting and registering a new live handle keeps the registry coherent |
| `Handles.Emptied` | src/ts/Tensor.ts:207 | emptying the arena keeps the registry coherent |
| `Handles.Ptrs` | src/ts/Tensor.ts:186 | the captured ids are the handles' ids, in arena order |
| `Handles.PointerShape` | src/ts/Tensor.ts:134-136 | `fromPointer` passes [cols] for a 1-d shape and [rows, cols] otherwise |
| `Handles.ToInt32` | src/ts/Tensor.ts:228-241 | a number passed to an `int` parameter is kept when it fits, and `undefined` becomes 0 |
| `Handles.ReshapeArgs` | src/ts/Tensor.ts:228-241 | the arguments `reshape` passes are `int` values |
| `Handles.ReshapeArgsIntended` | src/ts/Tensor.ts:228-237 | the arguments `reshape` evidently means to pass: rows as given, cols as given when there is one, and -2, the alias of src/cpp/core/transformations.cpp:27, when there is none; the as-written call sends 0 there |
| `Handles.ReshapeMissingColsRefused` | src/ts/Tensor.ts:231-237 | as written, `reshape([-1])` sends -1 x 0, and the kernel refuses that for every tensor with "Found 0 at dim 1" |
| `Handles.ReshapeMissingColsFlattens` | src/cpp/core/transformations.cpp:51-57 | with the missing cols sent as -2, `reshape([-1])` turns any well formed tensor into a 1-d tensor of all its elements, keeping the data |
| `Handles.ReshapeMissingColsExample` | test/transformations.ts:9-12 | on the 2 x 2 tensor [1, 2, 3, 4], `reshape([-1])` fails as written and gives the 1-d [1, 2, 3, 4] as intended |
| `Handles.WiredShape` | src/cpp/core/core.cpp:5-9 | a shape written to the wire is read back by `sync` as the object's shape |
| `Handles.Supplied` | src/ts/Tensor.ts:569-585 | a scalar is sent as one value and a list as its values |
| `Handles.InputArgs.Free` | src/ts/Tensor.ts:587-593 | `free` releases the block of a copied operand and leaves a borrowed tensor buffer alone |
| `Handles.NewInputArgs` | src/ts/Tensor.ts:569-585 | a tensor operand borrows its buffer and size; any other operand is copied into a fresh block of its length |
| `Handles.BorrowedWhole` | src/ts/Tensor.ts:569-576 | a borrowed tensor operand is exactly that tensor's data |
| `Handles.OrdCode` | src/ts/Tensor.ts:3-7 | a missing order and L2 are sent as 0; the codes lie in 0..2 |
| `Handles.PadArgs` | src/ts/Tensor.ts:419-450 | `pad` refuses pairs on a 1-d tensor and a flat list on a 2-d one; a 1-d tensor gets no row padding |
| `Handles.Nest` | src/ts/Tensor.ts:494-503 | nesting rows * cols elements gives rows lists of cols |
| `Handles.NestAt` | src/ts/Tensor.ts:494-503 | element (r, c) of the nested array is element r * cols + c of the data |
| `Handles.NestJoined` | src/ts/Tensor.ts:494-503 | flattening the nested array gives back the data |
| `Handles.ArrayRoundTrip` | src/ts/Tensor.ts:480-504 | the nested array of a 2-d tensor, fed back to the constructor, is inferred with the same shape and data |
| `Handles.Pointers` | src/ts/Tensor.ts:376-387 | `stack` sends the matrices' ids, in order |
| `Handles.EyeGrows` | src/ts/Tensor.ts:370-372 | a store of 1 that lands inside the typed array sets the diagonal cell |
| `Handles.EyeBeyond` | src/ts/Tensor.ts:370-372 | a store past the end of the typed array is dropped |
| `Host.Registry.constructor` | src/ts/Tensor.ts:32-34 | at start no handle exists, the arena is empty, no scope is open, the count is 0 and the module holds nothing |
| `Host.Registry.Register` | src/ts/Tensor.ts:51-58 | the constructor's tail reads the data pointer, counts the handle and registers it in the arena while a scope is open |
| `Host.Registry.Adopt` | src/ts/Tensor.ts:134-136 | `fromPointer` adopts the new object with the given shape |
| `Host.Registry.AdoptWired` | src/ts/Tensor.ts:161-166 | a handle synced from the wire takes the shape the kernel wrote, and the wire is freed |
| `Host.Registry.Transpose` | src/ts/Tensor.ts:338-345 | refused exactly for a 1-d handle, with nothing changed; otherwise a new handle over the transposed object |
| `Host.Registry.Reshape` | src/ts/Tensor.ts:228-241 | with a missing cols sent as -2 (see Findings): the kernel's error leaves the statics unchanged and leaks the wire; otherwise a new handle over the reshaped alias |
| `Host.Registry.Retire` | src/ts/Tensor.ts:126-129 | `delete`'s bookkeeping uncounts the handle, marks it deleted and unowns its id |
| `Host.Registry.Release` | src/ts/Tensor.ts:130 | deleting the object frees exactly that object and touches no handle |
| `Host.Registry.Delete` | src/ts/Tensor.ts:126-132 | a deleted handle is left alone; a live one is retired and its object deleted, so nothing is deleted twice |
| `Host.Registry.BeginScope` | src/ts/Tensor.ts:138-140 | only the flag is set |
| `Host.Registry.Tombstone` | src/ts/Tensor.ts:184-192 | every captured handle is retired with id 0, its id collected in arena order and uncounted; every other handle is untouched |
| `Host.Registry.Entomb` | src/ts/Tensor.ts:184-192 | tombstoning keeps the registry valid and leaves ids that no live handle owns |
| `Host.Registry.Sweep` | src/ts/Tensor.ts:184-192 | the loop, entry by entry of the arena |
| `Host.Registry.SweepArena` | src/ts/Tensor.ts:184-192 | the loop over the arena, collecting the captured ids |
| `Host.Registry.ReleaseAll` | src/ts/Tensor.ts:194-202 | the batch frees exactly the collected objects |
| `Host.Registry.DeleteBatch` | src/ts/Tensor.ts:194-202 | the ids are copied into a fresh block, deleted in one batch and the block freed |
| `Host.Registry.CloseScope` | src/ts/Tensor.ts:169-219 | `scope` ends with the flag cleared, the arena empty, every captured handle tombstoned and its object freed, the counter down by their number, the rest untouched and the outcome passed on |
| `Host.Registry.Finish` | src/ts/Tensor.ts:181-208 | the flag cleared, the objects freed, the arena emptied |
| `Host.Registry.LeaveScope` | src/ts/Tensor.ts:181 | only the flag is cleared |
| `Host.Registry.ResetArena` | src/ts/Tensor.ts:207 | only the arena is emptied |
| `Host.Registry.EndScope` | src/ts/Tensor.ts:142-144 | `endScope` is `scope` with no survivor |
| `Host.Registry.Memory` | src/ts/Tensor.ts:122-124 | `memory()` reports the number of live handles |
| `Host.Registry.Construct` | src/ts/Tensor.ts:40-59 | a rejected construction changes nothing; otherwise the handle is completed, and with an empty shape array any data but the NULL sentinel is refused after the object is made |
| `Host.Registry.Complete` | src/ts/Tensor.ts:48-58 | a `setData` refusal leaves the fresh object behind uncounted; otherwise a counted handle holding the data |
| `Host.Registry.Allocate` | src/ts/Tensor.ts:50-54 | create, read the data pointer and write the data unless it is the NULL sentinel |
| `Host.Registry.SetData` | src/ts/Tensor.ts:65-85 | a refusal changes nothing; otherwise the buffer is replaced and every handle sharing it reads the new data |
| `Host.Registry.Clone` | src/ts/Tensor.ts:222-226 | a new handle over a new object sharing buffer and shape |
| `Host.Registry.Flatten` | src/ts/Tensor.ts:243-247 | a new 1-d handle of rows * cols elements over the same buffer, over the corrected `tensor_flatten` (see "Left out") |
| `Host.Registry.Arith` | src/ts/Tensor.ts:249-268 | the kernel's error leaves the statics and a borrowed buffer unchanged; otherwise a new handle with the receiver's shape |
| `Host.Registry.Operate` | src/ts/Tensor.ts:249-268 | wire the operand, call the kernel, then free |
| `Host.Registry.Div` | src/ts/Tensor.ts:270-275 | `div` with the operand passed as intended: the dispatch of `add`, the given quotients, the receiver's shape |
| `Host.Registry.Divide` | src/ts/Tensor.ts:270-275 | wire the operand, call `tensor_div`, then free |
| `Host.Registry.Square` | src/ts/Tensor.ts:277-280 | a new handle with the squared data and the receiver's shape |
| `Host.Registry.Reverse` | src/ts/Tensor.ts:328-336 | refused exactly for an axis above -1 on a 1-d handle; otherwise the reversed copy |
| `Host.Registry.Mean` | src/ts/Tensor.ts:282-294 | the 1-d guard on the raw axis changes nothing; the module gets the axis wrapped to `int` (`Core.Int32`), and its refusal leaks; otherwise the reduced shape along the wrapped axis, synced, with keepdims recorded |
| `Host.Registry.Averaged` | src/ts/Tensor.ts:282-294 | a wire is allocated and `tensor_mean` called |
| `Host.Registry.Norm` | src/ts/Tensor.ts:296-314 | the 1-d guard on the raw axis, the order code, then the module's shape rule and errors for the axis wrapped to `int`, with keepdims recorded |
| `Host.Registry.Normed` | src/ts/Tensor.ts:296-314 | a wire is allocated and `tensor_norm` called |
| `Host.Registry.MatMul` | src/ts/Tensor.ts:317-326 | a non-tensor argument is refused; mismatched dimensions leak; otherwise the product |
| `Host.Registry.Multiplied` | src/ts/Tensor.ts:317-326 | a wire is allocated and `tensor_matmul` called |
| `Host.Registry.Diag` | src/ts/Tensor.ts:389-398 | refused on a 2-d handle; otherwise the diagonal matrix |
| `Host.Registry.Diagonalized` | src/ts/Tensor.ts:389-398 | a wire is allocated and `tensor_diag` called |
| `Host.Registry.Pad` | src/ts/Tensor.ts:419-450 | refused paddings change nothing; otherwise the padded copy, with a missing constant read as 0 |
| `Host.Registry.Padded` | src/ts/Tensor.ts:419-450 | a wire is allocated and `tensor_pad` called |
| `Host.Registry.Stack` | src/ts/Tensor.ts:376-387 | no matrices fail after the module's empty result is made; otherwise the stacked tensor, (n * rows) x cols |
| `Host.Registry.Stacking` | src/ts/Tensor.ts:376-387 | the ids are copied into a scratch block, `tensor_stack` called, the block freed |
| `Host.Registry.Buffer` | src/ts/Tensor.ts:453-464 | a deleted handle is refused; otherwise a view of rows * cols elements at the data pointer |
| `Host.Registry.Data` | src/ts/Tensor.ts:467-477 | a deleted handle is refused; otherwise a copy of the elements |
| `Host.Registry.Array` | src/ts/Tensor.ts:480-504 | a deleted handle is refused; otherwise a number, a flat list or nested rows of the elements |
| `Host.Registry.Unflatten` | src/ts/Tensor.ts:494-503 | the nested loops compute the nesting |
| `Host.Registry.Bounds` | src/ts/Tensor.ts:506-528 | the bounds of `get_bounds` as written: every x in [xmin, xmax] with both ends attained, y bounded with a second column, the first x inside [ymin, ymax]; memory and statics unchanged |
| `Host.Registry.Measured` | src/ts/Tensor.ts:506-528 | the scratch block is allocated, filled by `tensor_get_bounds`, read and freed, with the same bounds |
| `Host.Registry.Zeros` | src/ts/Tensor.ts:347-352 | the inferred shape with nothing written: all zeros |
| `Host.Registry.Ones` | src/ts/Tensor.ts:354-360 | the inferred shape filled with ones |
| `Host.Registry.Identity` | src/ts/Tensor.ts:362-374 | refused for a 1-d shape; otherwise ones exactly on the leading diagonal |
| `Host.Registry.EyeBuffer` | src/ts/Tensor.ts:368-372 | the loop on the zeroed typed array gives the identity cells |
| `Host.Registry.ZerosLike` | src/ts/Tensor.ts:400-403 | a zero tensor of the receiver's shape |
| `Host.Registry.OnesLike` | src/ts/Tensor.ts:405-409 | a tensor of ones of the receiver's shape |

## Left out

- Floating point: `div`, `mean` and `norm` compute float results. Their values
  are supplied as a parameter (`values`); only the dispatch, the shapes and the
  errors are modelled. `Real` is `int` everywhere else.
- The `no_nan` scrubbing of `div` is left out too, because it is about NaN and
  infinity.
- `mod`, `pow`, the `math_op` family (abs, ceil, trigonometry and so on), and
  the Kalman and linear-algebra code are not part of this model.
- `Foreign.Mean`: the mean kernel on an axis outside -1..1 builds a tensor of
  rows x cols with no data. The model refuses that axis with `AxisUnsupported`
  instead, because module memory holds only objects whose shape matches their
  buffer. The inconsistent result is stated for the reductions by
  `Reduction.ReducedWellFormed`.
- `Host.Registry.Mean`: for the same axis the host gets an error and leaks the
  wire. The program instead hands back a rows x cols handle over no data.
- `Host.Registry.Flatten`: runs the corrected `tensor_flatten` (see Findings).
  As written, the object keeps rows x cols while the handle records
  1 x (rows * cols). The model therefore misses two consequences. First, in
  the program `add` of a list of the original cols elements still broadcasts
  row by row, where the model refuses it. Second, `diag` writes past its
  buffer. `Foreign.Flatten` corrects the same way; the as-written
  object is `Foreign.FlattenedAsWritten`.
- `Foreign.Reshape`: runs the corrected reshape, whose results always match
  their buffer. `tensor_reshape` as written also accepts a zero dimension
  beside any other, and a negative one beside a positive one, for example
  4 x 0 or 2 x -5 on four elements. It would then make an object whose shape
  does not match its buffer. The model refuses these requests.
- `Host.Registry.Reshape`: runs the corrected reshape too, and sends a
  missing cols as -2 rather than 0 (see Findings). So `reshape([4])` of a
  2 x 2 handle sends 4 x -2 and gets a 4 x 1 handle, where the program sends
  4 x 0 and hands back a 4 x 0 handle over four elements. An explicit zero,
  as in `reshape(4, 0)`, is refused here and leaks the wire.
- `Handles.InferredShape`, `Host.Registry.Zeros`: an empty shape array leaves
  the host's rows and cols undefined. The module gets 0 x 0. The model records
  0 x 0 on the handle as well, so `shape` reads [0, 0] where the program reads
  [undefined, undefined]. With data, the constructor refuses as
  `Handles.ConstructorRefusal` states.
- `Host.Registry.Ones`, `Host.Registry.Identity`: for an empty shape array the
  program fails. `ones` throws a RangeError from `Array(NaN)`. `identity`
  makes its object, then `setData` refuses it. The model gives a 0 x 0 tensor.
- `Host.Registry.Bounds`, `Host.Registry.Measured`: the model reads the four
  slots before the block is freed. Tensor.ts reads its view only after
  `_free(boundsPtr)`, so it reads freed memory whose first slots the allocator
  may have changed. The model returns the values the kernel wrote.
- `Handles.PadArgs`: padding amounts are natural numbers. A negative or
  fractional number passed to the `size_t` parameters of `tensor_pad` would be
  truncated and wrapped, and that is not modelled.
- `Handles.NewInputArgs`: an `Array2d` operand, which `InputData` admits, is
  not modelled. The `Float32Array` conversion turns each of its rows into NaN.
- `SliceJoin.Stack`, `Foreign.Stack`, `Host.Registry.Stack`,
  `Host.Registry.Stacking`: require `SliceJoin.Fits`, that the instances' data
  fit the (n * rows) x cols result. The source also accepts instances of other
  sizes, and `std::copy` then writes past the result's buffer.
- `Handles.Outcome`, `Host.Registry.CloseScope`: a callback that throws a falsy
  value (`throw 0`) is swallowed by `if (err)`, and `scope` returns
  `undefined`. In the model a throw is always passed on.
- Instance `identity` is not part of this model. It calls `_tensor_identity`,
  which only the older `src/cpp/Bindings.cpp` defines, and no kernel of
  `src/cpp/core` provides it.
- `Core.GetBounds`, `Foreign.GetBounds`, `Host.Registry.Bounds`: require at
  least one element, because `get_bounds` reads `vec[0]` unguarded.
- Shape fields: a handle's `rows`, `cols` and `is1d` are fixed at
  construction. The one place the source overwrites them, `_syncShapeWire`,
  immediately after `fromPointer`, is modelled by building the handle with
  the synced shape (`Host.Registry.AdoptWired`).
- `Host.Registry.Tombstone`: the counter decrements happen once, after the
  loop, by the number captured. No one can observe the counter between
  iterations.
- `Host.Registry.EndScope`: the `inScope = true` that `scope` sets on entry is
  cleared again before any handle can be made, so it is not modelled.
- `console.error` of a batch-delete failure is I/O and is left out. The
  failure path itself cannot happen in a valid registry, because every
  captured id is live.
- `Handles.Dim`: shape entries are natural numbers. Negative or fractional
  entries of a JavaScript array are not modelled.
- `instanceof Tensor` checks become `Option`. An argument that is not a
  tensor is `None`.
- `Host.Registry.Construct`, `Zeros`, `Ones`, `Identity`, `ZerosLike`,
  `OnesLike`: require `Allocatable`. Dimensions must fit the `size_t`
  parameters and the module's memory. An allocation failure of the module is
  not modelled.
- `Host.Registry.Pad`, `Stack`, `Diag`, `MatMul`, `Mean`, `Norm`: require the
  result to fit memory.
- `Host.Registry.SetData`, `Arith`, `Div`, `Stack`: require live handles.
  Calling them on a deleted handle makes the module read a freed object,
  which is undefined behaviour and not a modelled error.
- `Creation.Eye`: requires cols <= rows, because the C++ loop writes past the
  buffer otherwise.
- `Creation.Diag`: requires that the data fit in the columns, for the same
  reason. This is the precondition the flatten finding breaks.
- `Host.Registry.Buffer`: returns the address and length of the view. Later
  writes through an aliased view are not modelled.
- `Transformations.ReshapeAsWritten`, `Transformations.Reshape`: multiply the
  new dimensions exactly. The 32-bit wrap-around of `new_rows * new_cols` in
  the C++ product is not modelled, so 65536 x 65536 on no elements is refused
  here where the code accepts it.
- `src/cpp/Tensor.cpp` and `src/cpp/Bindings.cpp` are an older build of the
  same entry points and are not part of this model, apart from the signature
  of `tensor_div` cited under Findings.
- The loaders, Emscripten's heap views (`HEAPF32`, `HEAPU32`) as typed
  arrays, and the `Float32Array` coercion of stored values are left out.
  Module memory is modelled as maps of integer sequences.

## Findings

| source | as written | input that shows it | evidently intended | confidence | as-written member | corrected member |
|---|---|---|---|---|---|---|
| src/cpp/core/core.cpp:74-84 | all four bounds, y included, are seeded with `vec[0]`, the first x | points (0,5), (1,6): ymin comes out 0, which is no y value | seed the y bounds with `vec[1]`, the first y | not executed; high | `Core.BoundsSeedLeak` (with `Core.GetBoundsAsWritten`, which `Foreign.GetBounds` runs) | `Core.GetBounds` |
| src/cpp/core/transformations.cpp:32-49 | a negative dimension other than -1 beside a positive one passes the guards, then wraps through `size_t`; a zero dimension beside any explicit dimension passes too, as the size check only runs when both are positive | four elements reshaped to 2 x -5 give cols 2^32 - 5; to 4 x 0 (what `reshape([4])` sends) they give a tensor of no cells | refuse every negative dimension that is not an inference marker, and hold explicit dimensions to the element count | not executed; high | `Transformations.ReshapeNegativeDimSlipsThrough`, `Transformations.ReshapeZeroDimSlipsThrough` (with `Transformations.ReshapeAsWritten`) | `Transformations.Reshape` |
| src/cpp/core/transformations.cpp:92-94 | `tensor_flatten` keeps rows and cols while the host records 1 x rows*cols | flatten a 2 x 2 tensor, then `diag`: the kernel sizes its result by cols but writes rows*cols diagonal cells | make the object 1 x rows*cols, as the host assumes | not executed; high | `Foreign.FlattenKeepsRows` (with `Foreign.FlattenedAsWritten`) | `Foreign.Flatten` |
| src/cpp/core/reduction.cpp:106-126 | along an axis, `arg_max` compares each element with its predecessor, not with the best so far | column [0, 5, 3, 4]: answer 3, though the maximum 5 is at 1 | compare with the best so far, as the 1-d path does | not executed; high | `Reduction.ArgMaxRiseIsNotMax` (with `Reduction.ArgReducedAsWritten`) | `Reduction.ArgReduced` |
| src/ts/Tensor.ts:272 | `div` passes three arguments to the four-parameter `tensor_div` of src/cpp/core/arithmetic.cpp:302, so the operand size reads as 0 | [1, 2, 3, 4] as 2 x 2 divided by 2 is refused as not broadcastable | pass `no_nan`, then the operand and its size | not executed; medium, since the div tests of test/arithmetic.ts:83-107 expect quotients, as the three-parameter `tensor_div` of src/cpp/Bindings.cpp:152-154 gives | `Foreign.DivSizeDropped` (with `Foreign.DivAsCalled`) | `Foreign.Div` |
| src/ts/Tensor.ts:231-237 | a shape array of one entry leaves `cols` undefined, and `cols!` passes it on, so the kernel gets 0 for cols | `reshape([-1])` of the 2 x 2 tensor [1, 2, 3, 4] reaches the kernel as -1 x 0 and is refused with "Shapes can not be < 0. Found 0 at dim 1" | send -2, the kernel's alias for a missing cols (src/cpp/core/transformations.cpp:26-27), which flattens to the 1-d [1, 2, 3, 4] that test/transformations.ts:9-12 expects | not executed; high | `Handles.ReshapeMissingColsRefused` (with `Handles.ReshapeArgs`) | `Handles.ReshapeArgsIntended`, with `Handles.ReshapeMissingColsFlattens` and `Handles.ReshapeMissingColsExample` |
