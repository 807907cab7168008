# image-gp-6 in Dafny: the mutation pass and its helpers

image-gp-6 evolves images by genetic programming. A program is a tree kept
as a flat operation sequence in pre-order. Its value (leaf) nodes keep
their values on a packed value stack. This project models the
repository's own genetic operators and the integer and buffer-shape logic
around them:

- **Mutation pass** (`Transformer.Mutate`, a method on a `Tree` class):
  - the child is cloned from the parent;
  - the cursor loop re-reads the length of the operation sequence at every step;
  - the per-node chance is computed once from the tree size;
  - the operator is chosen from a cumulative table;
  - ADJUST rewrites a value node's slot in place, found `bytes_from_head` bytes below the top of the stack;
  - EXPRESSION is the library's `mutate_point`;
  - SUB_FUNC, JUMP_FUNC and COPY do nothing;
  - END cannot be reached.
- **Crossover** (`Transformer.Crossover`): it defers to the library's own crossover.
- **Selection table** (`OperatorTable`): `sum` and `aggregate_array` in exact arithmetic, the enum and its table.
- **Value stack** (`ValueStack`): the stack as a sequence of typed slots, and the byte arithmetic linking node positions to slots.
- **Layout helpers** (`Helper`) and **configuration** (`Config`): index and coordinate conversion, the pointwise image combinators, the recursive `log2` and the geometry constants.
- **Image operators** (`ImageOperations`):
  - kernel-size normalisation and the blur pass loops;
  - `band_pass` parameter ordering;
  - the `hsv_to_rgb` sector dispatch;
  - the fill loops of the terminal images `lit`, `vec`, `img_size` and `x_*`/`y_*`.

Modelling choices:
- Doubles and floats are exact reals.
- `blt::u64` is `Config.U64`, which is below 2^64.
- Every random draw is a function of the visit number, so one `Random` value stands for one run of the generator.
- The selection table divides the prefix sums of the weights 0.05, 0.1, 0.01, 0.15 and 0.12 by their total 0.43 (include/custom_transformer.h:39-45). Its entries are therefore 5/43, 15/43, 16/43, 31/43 and 1.
- ADJUST sends every type size other than 4 and 8 to the image branch (src/custom_transformer.cpp:96).
- The u64 redraw draws from [old, max] or [min, old + 1] and is not clamped afterwards (src/custom_transformer.cpp:92-95).

## Model

| member | source | states |
|---|---|---|
| Config.Log2 | include/config.h:24-27 | log2(n) is at least 1, and it is 1 exactly when n < 2 |
| Config.Log2OfPow2 | include/config.h:24-27 | log2(2^k) == k + 1 for every k |
| Config.Log2Monotone | include/config.h:24-27 | log2 never decreases as its argument grows |
| Config.Log2Brackets | include/config.h:24-27 | for n >= 1, 2^(log2(n) - 1) <= n < 2^log2(n): log2 counts the binary digits of n |
| Config.BoxCountIsSeven | include/config.h:37 | BOX_COUNT == log2(IMAGE_SIZE / 2) == log2(64) == 7 |
| Config.ImageGeometry | include/config.h:31-36 | DATA_SIZE == IMAGE_SIZE * IMAGE_SIZE == 16384 and DATA_CHANNELS_SIZE == DATA_SIZE * CHANNELS == 49152 |
| Helper.MakeSingle | include/helper.h:24-33 | the result has DATA_CHANNELS_SIZE elements, and element i is f(a[i]) for every i |
| Helper.MakeDouble | include/helper.h:35-44 | the result has DATA_CHANNELS_SIZE elements, and element i is f(a[i], b[i]) for every i |
| Helper.GetCtx | include/helper.h:51-58 | x < IMAGE_SIZE; y == (i / CHANNELS) / IMAGE_SIZE; and get_index(x, y) == i / CHANNELS, so the index is divided by CHANNELS before the split |
| Helper.GetCtxSamePixel | include/helper.h:51-58 | the CHANNELS indices of one pixel all map to the same (x, y) |
| Helper.GetCtxInImage | include/helper.h:51-58 | every index of the channel buffer maps to a row inside the image |
| Helper.GetCtxGetIndex | include/helper.h:51-72 | round trip: get_ctx(get_index(x, y) * CHANNELS + c) == (x, y) for x < IMAGE_SIZE and every channel c |
| Helper.GetPopCtx | include/helper.h:60-67 | x < 8 == sqrt(POP_SIZE), y == i / 8 and y * 8 + x == i |
| Helper.PopulationGridIsSquare | include/helper.h:62 | the population grid is exactly square: 8 * 8 == POP_SIZE |
| Helper.GetIndex | include/helper.h:69-72 | for x, y < IMAGE_SIZE the index is below DATA_SIZE; for x < IMAGE_SIZE, dividing by IMAGE_SIZE gives back y and the remainder gives back x |
| OperatorTable.Ordinal | include/custom_transformer.h:63-71 | the enumerators are numbered 0 .. 5, and only END has ordinal 5 |
| OperatorTable.FromOrdinal | include/custom_transformer.h:63-81 | the cast from an index inverts Ordinal on 0 .. 5, and yields an operator other than END exactly for indices below operators_size |
| OperatorTable.Sum | include/custom_transformer.h:26-33 | the result is the left-to-right total of the array's elements |
| OperatorTable.AggregateArray | include/custom_transformer.h:35-47 | the table has one entry per weight, and entry k is (w0 + ... + wk) / (w0 + ... + wn-1) |
| OperatorTable.AggregatedEndsAtOne | include/custom_transformer.h:39-45 | the last entry of the table is exactly 1 |
| OperatorTable.AggregatedNondecreasing | include/custom_transformer.h:41-45 | for nonnegative weights with a positive total, the entries never decrease and lie in [0, 1] |
| OperatorTable.PrefixSums | include/custom_transformer.h:86-92 | the running totals of the weights, in enum order, are 0.05, 0.15, 0.16, 0.31 and 0.43 |
| OperatorTable.MutationOperatorChances | include/custom_transformer.h:86-92 | the pass's table has one entry per real operator, is nondecreasing, lies in [0, 1] and ends at exactly 1 |
| OperatorTable.WeightsTableShape | include/custom_transformer.h:36-47 | the five weights have a positive total, and the table aggregate_array builds from them has the shape above |
| OperatorTable.MutationOperatorChancesValues | include/custom_transformer.h:81-92 | operators_size == 5 (the ordinal of END), and the table is [5/43, 15/43, 16/43, 31/43, 1], one entry per real operator |
| ValueStack.AlignedSize | src/custom_transformer.cpp:82 | an aligned size is a multiple of the alignment unit, at least the type size and less than type size + unit |
| ValueStack.BytesFromMatchesSlots | src/custom_transformer.cpp:80-82 | on a consistent tree, the bytes of the value nodes from position i on equal the bytes of the stack slots from node i's slot to the top |
| ValueStack.UsedBytesMatchOperations | src/custom_transformer.cpp:80-82 | on a consistent tree, the stack's used bytes equal the sum of aligned_size(type_size) over all value nodes |
| ValueStack.FromHeadIn | src/custom_transformer.cpp:86-98 | a slot found among the first n slots lies below n, and the offset read equals the bytes of the slots above it up to n |
| ValueStack.FromHead | src/custom_transformer.cpp:86-98 | a slot found by `from` at a byte offset is a slot of the stack, and the offset equals the summed aligned size of the slots above it |
| ValueStack.FromHeadFindsSlot | src/custom_transformer.cpp:86-98 | reading `from` at the summed size of the slots above slot k returns slot k |
| ValueStack.BytesFromHeadLocatesSlot | src/custom_transformer.cpp:78-98 | for a value node c, `bytes_from_head` locates c's own slot, and that slot holds a value of c's type size |
| ValueStack.ReplaceSlotKeepsConsistent | src/custom_transformer.cpp:84-122 | rewriting one slot with a value of the same type size keeps the operation sequence and the stack consistent |
| Transformer.FirstClaim | src/custom_transformer.cpp:50-67 | the result is the first table entry that claims the draw (first entry: draw <= entry; later entries: previous < draw <= entry), or the table length when none does |
| Transformer.NodeChance | src/custom_transformer.cpp:41 | for a nonempty tree the per-node chance times the number of nodes is per_node_mutation_chance, and the chance lies in (0, 1] |
| Transformer.TableOperator | src/custom_transformer.cpp:47-67 | for a table of at most operators_size entries the result is never END; it is the first entry that claims the draw, or COPY when no entry claims it |
| Transformer.SelectOperator | src/custom_transformer.cpp:47-67 | the selected index is the first claiming entry, or COPY when no entry claims the draw; it is the operator TableOperator names; for a table of at most operators_size entries it is never END |
| Transformer.ClaimsUnique | src/custom_transformer.cpp:50-67 | in a nondecreasing table at most one entry claims a draw |
| Transformer.ClaimsCover | src/custom_transformer.cpp:50-67 | in a nondecreasing table every draw up to the last entry is claimed by some entry |
| Transformer.OperatorTableSelection | src/custom_transformer.cpp:47-67 | with the pass's own table, every draw in [0, 1] is claimed by exactly one of the five operators, so the COPY fallback only serves draws above 1 |
| Transformer.Average | src/custom_transformer.cpp:87-88 | the float blend (old + adjustment) / 2 lies between its two inputs |
| Transformer.BlendImage | src/custom_transformer.cpp:116-121 | element i of the blended image is the average of element i of the old image and of the adjustment, for every i |
| Transformer.Adjusted | src/custom_transformer.cpp:84-122 | the rewritten value keeps the type size of the old one, and an image stays a full image |
| Transformer.AdjustValue | src/custom_transformer.cpp:84-122 | dispatching on the node's type size (4: float, 8: u64, anything else: image) produces the value Adjusted describes: the float averaged with the literal; the u64 redrawn from [old, max] on heads and from [min, old + 1] (wrapping at 2^64) on tails; the image blended element by element with a static image terminal |
| Transformer.AdjustedFloatBetween | src/custom_transformer.cpp:84-88 | the adjusted float lies between the old value and the drawn literal |
| Transformer.Tree.Clone | src/custom_transformer.cpp:36 | the child starts as an exact copy of the parent's operations and values |
| Transformer.Tree.BytesFromHead | src/custom_transformer.cpp:80-82 | the loop's result is the sum of the aligned sizes of the value nodes after c; it is 0 for the last node; on a consistent tree it locates c's slot |
| Transformer.Tree.Adjust | src/custom_transformer.cpp:74-125 | the tree stays consistent; the operation sequence is unchanged; a function node leaves the stack unchanged; for a value node only its own slot changes, to Adjusted of its old value |
| Transformer.MutateNode | src/custom_transformer.cpp:45-141 | one visit is a Step from the child before to the child after it: the node is selected exactly when the chance draw succeeds, then gets the operator the table selects, never END; EXPRESSION leaves `mutate_point`'s tree and skip count; ADJUST on a value node rewrites only that node's slot, to Adjusted of its old value; ADJUST on a function node and all other operators leave the tree unchanged |
| Transformer.Mutate | src/custom_transformer.cpp:33-145 | the parent is not modified and the child stays consistent; the pass returns the trace of trees it went through, from the parent to the child, and each visit is a Step of it: the visit's cursor lies inside the tree as it stood then, EXPRESSION leaves exactly `mutate_point`'s tree and skip, ADJUST on a value node rewrites only that node's slot to Adjusted, and every other visit leaves the tree unchanged; every visit used the chance computed once from the parent's size and followed the draws; the cursor starts at 0 and advances by 1 plus the skip until it passes the end of the child; without EXPRESSION every node is visited once in order, the operation sequence and slot types are unchanged, and each value node's slot holds Adjusted of the parent's value when that node drew ADJUST and the parent's value otherwise; without EXPRESSION and with no ADJUST on a value node the child equals the parent |
| Transformer.PassStep | src/custom_transformer.cpp:43-141 | one visit that follows the draws and is a Step of the trace keeps everything the pass maintains: the cursor, the recorded draws, the trace and the facts that hold while EXPRESSION has not run |
| Transformer.UntilExpressionStep | src/custom_transformer.cpp:43-125 | one visit that is a Step keeps, while EXPRESSION has not run, the cursor at the visit count, the parent's operations and slot types, and the slot relation |
| Transformer.PassInit | src/custom_transformer.cpp:36-43 | before the first visit the trace is the parent alone and every maintained fact holds of the parent |
| Transformer.PassDone | src/custom_transformer.cpp:43 | once the cursor has passed the end of the child, a pass without EXPRESSION made exactly one visit per node of the parent, the j-th at node j |
| Transformer.TraceAppended | src/custom_transformer.cpp:43-141 | appending a visit and the tree it leaves extends the trace |
| Transformer.TraceStep | src/custom_transformer.cpp:43 | every visit of a trace starts inside the tree it finds |
| Transformer.OneNodePassVisitsOnce | src/custom_transformer.cpp:43 | on a one-node tree whose first visit is not EXPRESSION, the pass makes exactly one visit: no visit happens past the end of the tree |
| Transformer.SlotsStep | src/custom_transformer.cpp:43-125 | one non-EXPRESSION visit extends the slot relation above from the visits so far to the visits including it, because distinct value nodes have distinct slots |
| Transformer.ValueSlotsDistinct | src/custom_transformer.cpp:80-82 | a value node's slot index is strictly below the slot index of any later node |
| Transformer.Crossover | src/custom_transformer.cpp:27-30 | the result is exactly the library crossover's result for the same two parents |
| ImageOperations.EffectiveKernelSize | include/image_operations.h:112-113 | the kernel size actually used (here and at lines 140-141, 159-160, 184-185) is odd; an even size grows by exactly 1 and an odd size is unchanged |
| ImageOperations.EffectiveKernelSizeIsLeastOdd | include/image_operations.h:159-160 | the effective size is the smallest odd number not below the requested size |
| ImageOperations.EffectiveKernelSizeIdempotent | include/image_operations.h:140-141 | normalising an already normalised size changes nothing |
| ImageOperations.MedianKernelSize | include/image_operations.h:172-175 | median_blur's size is odd and between 1 and 5: the effective size up to 5, and 5 above it |
| ImageOperations.BlurPasses | include/image_operations.h:159-163 | the pass loop blurs with kernels 1, 3, 5, ..., all odd and below the effective size: effective size / 2 passes, the j-th with kernel 2j + 1 |
| ImageOperations.BlurPassCount | include/image_operations.h:143-144 | the number of passes is (effective size - 1) / 2, and sizes 0 and 1 run no pass |
| ImageOperations.BandLimits | include/image_operations.h:115-116 | band_pass orders its parameters: min <= max and {min, max} == {fa, fb} as a multiset |
| ImageOperations.BandLimitsSymmetric | include/image_operations.h:115-116 | swapping fa and fb gives the same (min, max) |
| ImageOperations.CDiv | include/image_operations.h:203 | C++ integer division truncates toward zero: the remainder a - b * q lies in [0, b) for a >= 0 and in (-b, 0] for a < 0 |
| ImageOperations.CRem | include/image_operations.h:199 | C++ `%` keeps the sign of the dividend and lies strictly between -b and b |
| ImageOperations.TruncateToInt | include/image_operations.h:199 | the cast of the hue channel to an integer drops the fraction toward zero: t <= f < t + 1 for f >= 0 and t - 1 < f <= t for f < 0 |
| ImageOperations.HueSector | include/image_operations.h:207-218 | a matching branch k is one of the six sectors, and h lies in [60k, 60(k + 1)) |
| ImageOperations.HueSectorDispatch | include/image_operations.h:207-218 | for h in [0, 360) exactly one sector matches, namely h / 60; no sector matches exactly when h is outside [0, 360) |
| ImageOperations.CastHueSector | include/image_operations.h:199-218 | the hue after `% 360` lies in (-360, 360); it matches no sector exactly when the truncated value is negative and not a multiple of 360; a nonnegative value matches sector (t % 360) / 60 |
| ImageOperations.SecondaryFactor | include/image_operations.h:203 | the integer factor 1 - abs(((h / 60) % 2) - 1) is 0 or 1 for a nonnegative hue and lies in [-1, 1] otherwise |
| ImageOperations.Scale | include/image_operations.h:203 | the secondary component x is c times the factor, for each factor in [-1, 1] |
| ImageOperations.SecondaryFactorValues | include/image_operations.h:203 | for h in [0, 360) the integer factor 1 - abs(((h / 60) % 2) - 1) is 1 in odd sectors and 0 in even ones |
| ImageOperations.SectorRgbPermutes | include/image_operations.h:207-218 | every sector's triple is a permutation of (c, x, 0) |
| ImageOperations.HsvFromChroma | include/image_operations.h:202-222 | when no sector matches the hue, every channel is m |
| ImageOperations.HsvFromChromaBounds | include/image_operations.h:202-222 | for h in [0, 360) and c >= 0, the sector's primary channel is c + m and every channel lies in [m, c + m] |
| ImageOperations.HsvPixel | include/image_operations.h:199-222 | a hue channel in [0, 360) always matches a sector; when no sector matches, every channel is v - v * s |
| ImageOperations.HsvPixelGrey | include/image_operations.h:199-222 | a pixel with saturation 0 becomes (v, v, v) whatever its hue |
| ImageOperations.HsvPixelPrimary | include/image_operations.h:199-222 | for a hue in [0, 360) and nonnegative s and v, the sector's primary channel is v, and every channel lies in [v - v * s, v] |
| ImageOperations.HsvToRgb | include/image_operations.h:194-225 | element j of the result is channel j % CHANNELS of the conversion of pixel j / CHANNELS, for every element |
| ImageOperations.FillPixels | include/image_operations.h:234-246 | the pixel loop writes the red, green and blue of pixel(i) to elements i * CHANNELS + 0, 1 and 2, for every pixel i < DATA_SIZE |
| ImageOperations.Lit | include/image_operations.h:227-233 | every element of the image is the drawn value bw |
| ImageOperations.ImgSize | include/image_operations.h:281-288 | every element of the image is IMAGE_SIZE |
| ImageOperations.Vec | include/image_operations.h:234-246 | every pixel holds the drawn (r, g, b): element j is r, g or b as j % CHANNELS is 0, 1 or 2 |
| ImageOperations.GradientAsWritten | include/image_operations.h:289-376 | x_r .. y_rgb as written: element j is the coordinate of get_ctx(j / CHANNELS) on the selected channels and 0 on the others |
| ImageOperations.GradientChannels | include/image_operations.h:289-376 | unselected channels are 0, and the `*_rgb` variants write the same coordinate to all three channels |
| ImageOperations.GradientAsWrittenMisplaces | include/image_operations.h:289-299 | pixel 3 lies at column 3 of row 0, but x_r writes 1 there |
| ImageOperations.Gradient | include/image_operations.h:289-376 | the gradients with the pixel's context read at its first channel index: element j is the coordinate of get_ctx((j / CHANNELS) * CHANNELS) on the selected channels |
| ImageOperations.GradientPlacesCoordinates | include/image_operations.h:289-376 | in the corrected gradients, channel c of the pixel at (x, y) holds x (or y) when c is selected and 0 otherwise |

## Left out

- Floating point: every double and float is an exact real. Rounding, NaN and infinity are not modelled. This includes the division by zero that the per-node chance would perform on an empty tree; the model uses 0 there, and the loop does not run then anyway.
- OperatorTable.AggregateArray: requires a nonzero total. A zero total divides by zero in the source, which the real-number model cannot express.
- Random numbers: the random generator is not part of this model. Each draw (`choice`, `get_double`, the fair coin, `get_u64`, the float literal terminal) is a function of the visit number.
- Transformer.Adjusted: `get_u64(lo, hi)` is an abstract function, so the result is not constrained to lie in [lo, hi].
- Static image terminal: the retry loop that searches the image terminals for a static one is not modelled. Running that terminal through the operator table is not modelled either. The resulting image is a parameter, assumed to be a full image.
- `mutate_point`, `crossover_t::apply`, `tree_t`, `stack_allocator` and the operator registry belong to the GP library and are not part of this model:
  - `mutate_point` is a function parameter. The model assumes it leaves a consistent tree and does not make the rest of the sequence longer than its skip count covers; that assumption is what makes the cursor loop terminate.
  - The library crossover is a function parameter of any result type.
  - The alignment unit of `aligned_size` is taken to be 8. Every proof uses only AlignedSize's contract.
- The slot rewrite works on values, not bytes. The model does not capture the aliasing of `from<T>` references into a raw byte buffer or the type punning that reading a slot by byte offset implies.
- `mutation_operator::FUNC` is used as a case label but the enum does not define it. The model treats it as a branch that is never taken.
- Image operators: the OpenCV filters, `perlin_noise`, `color_noise` and the float operators are not part of this model. Only their kernel-size, loop and index logic is modelled. Casting a kernel size or a hue above the `int` range to `int` is not modelled.
- The `blt::vec3` that hsv_to_rgb leaves unassigned when no sector matches (a negative hue) is taken to be (0, 0, 0).
- Value types: only the program's three value types (float, `blt::u64` and `full_image_t`) are modelled, and the consistency invariant ties each slot's type size to its value. The image branch of ADJUST is therefore only reached with an image; the model says nothing about a value node of any other type size.
- main.cpp, main_old.cpp, slr.h, float_operations.h and the image I/O of images.h are not part of this model.

## Findings

| source | as written | input that shows it | evidently intended | confidence | as-written member | corrected member |
|---|---|---|---|---|---|---|
| include/image_operations.h:289-376 | the gradient terminals pass the pixel index i to `get_ctx`, which divides its argument by CHANNELS because it expects a channel-buffer index | pixel 3 is at column 3 of row 0, but x_r writes 1 there; each x value covers three neighbouring pixels, and the y gradient never passes 42 | read the context with `get_ctx(i * CHANNELS)` (or split the pixel index directly), so the pixel at (x, y) gets x or y | medium, not executed | ImageOperations.GradientAsWritten, ImageOperations.GradientAsWrittenMisplaces | ImageOperations.Gradient, ImageOperations.GradientPlacesCoordinates |
