# xdna.cpp: verified model of the Q4_0 matrix-vector backend

The repository multiplies 4-bit block-quantized (Q4_0) matrices with float vectors on AMD XDNA machines. This
project models the logic that everything else rests on and proves what it is for:

- **Worker pool** (`Chunking`, `PoolProtocol`, `PoolRuns`, `WorkerPool`): the mutex and condition-variable
  protocol of `PersistentWorkerPool` as a step system with spurious wake-ups, for any number of workers and any
  interleaving, and as a class whose methods make exactly those steps.
- **Numbers and layouts** (`FloatFormats`, `Q4Reference`, `Q4Products`, `PackedLayout`, `WriteLog`, `Prepack`,
  `SimdGemv`, `Precision`, with `NamedArithmetic` for multiplication and division): bit patterns of binary16, BF16 and
  binary32 (sections 3.4 and 4.3.1 of IEEE 754-2019) as integers with an exact worth; the four forms of a Q4_0 matrix;
  the AVX2 kernels lane by lane; the effect of rounding the scales.
- **Gate-1 validator** (`LittleEndian`, `TextSearch`, `Decimal`, `JsonScan`, `JsonText`, `Gate1`, `Gate1Conditions`,
  `Gate1Texts`, `Gate1RoundTrip`): the xclbin container, the hand-written JSON scanner, the target profile, and the
  writer of the test fixture with its constants turned into parameters.
- **GGUF walkers** (`GgufStream`, `GgufFile`, `GgufTensors`, `GgufInventory`): the input stream with its failure
  flag, the two recursive metadata skippers, the two tensor tables, the byte inventory.
- **Topology, engine state, graph, metrics** (`Topology`, `TopologyRoundTrip`, `TopologyForms`, `GemvEngine`, `Graph`,
  `Metrics`).

`Words` holds the machine words with their limits and the optional. Values the source computes in floating point are
either kept abstract (any addition, multiplication and conversion, in `Q4Reference` and `Prepack`) or exact reals. Where
the source updates state in place the model has a class or an array and a method proved against a specification
function.

`dafny verify dfyconfig.toml` checks the project.

## What the code does not do

Each of these is an exact condition proved for all inputs, with the failing family inside it:

- `parallel_for` cuts `[0, total)` into chunks that hit every index once if and only if `total + chunks - 1` fits in 64
  bits (`Chunking.ExactlyOnceIff`), and a returned call has run every index once exactly then
  (`PoolRuns.ExactlyOnceInRunsIff`); a pool without workers waits for ever exactly when there is something to do
  (`PoolRuns.NoWorkersWaitIff`).
- The DSA strings of an image come back unless an earlier value is the key searched for, or ends in a quote and that
  key (`Gate1RoundTrip.StringsRecoveredIff`, `Gate1RoundTrip.VendorHidesName`). This never changes whether a target is
  accepted (`Gate1RoundTrip.AcceptedIff`).
- A JSON string comes back as what it spells exactly when no character is written by its code
  (`JsonText.SpellingRoundTripIff`, `JsonText.CodeMisread`).
- Packing keeps the bytes of every matrix exactly when 16 bytes for each group fit in a row's bytes, that is from group
  size 32 on, and writes each byte of the image once exactly when they fill them; all sizes are accepted
  (`Prepack.LosslessIff`, `Prepack.WrittenOnceIff`, `Prepack.LayoutMeaning`).
- A NaN scale is packed as a NaN exactly when its payload is from 5 to 1019; smaller ones become infinities and larger
  ones zeros (`FloatFormats.ScaleNanIff`, `FloatFormats.SpecialRounding`).
- A GGUF text is read, and its bytes consumed, exactly up to 1,000,000 bytes (`GgufFile.ReadStringIff`); after a longer
  key the inventory tool takes the key's first bytes for a type (`GgufFile.LongKeyMisread`).
- Without the `x`, `R rows C columns` is read as C rows and C columns (`TopologyRoundTrip.NumberBehindWins`).
- The benchmark tool loads a tensor's own bytes exactly when it has none or the table entries behind its own fit before
  the next multiple of 32: for tables whose tensors have dimensions, only for the last (`GgufTensors.LoadsOwnDataIff`).
- `run` refuses the short weight buffers, and no others, exactly for matrices of fewer than 2^64 bytes
  (`SimdGemv.GuardExactIff`, `SimdGemv.EmptyBufferPasses`).
- The dispatch counter equals the completed runs exactly when no run was refused, and that is when every buffer was large
  enough exactly if a run was refused or none overran (`GemvEngine.CountsCompletedIff`).
- A product that `supports_op` refuses for its shape is run all the same, without the activations behind its last whole
  block (`Graph.RefusedYetRunIff`, `Graph.TailActivationsUnused`); the graph runs as its supported nodes alone exactly
  when it has none such (`Graph.SupportedAloneIff`).
- Identical vectors pass `evaluate` exactly when their squared norm is above 1e-12 (`Metrics.IdenticalPassesIff`).
- A scale survives prepacking exactly when BF16 can represent it, and a row exactly when in each of its blocks the scale
  survives or all values are zero (`Precision.ScaleSurvivesIff`, `Precision.PackedRowExactIff`).
- The inventory's totals are conserved modulo 2^64 and 2^32 for every table (`GgufInventory.ConservedModulo`), and exactly
  when the true totals fit.

## Model

| member | source | states |
|---|---|---|
| Chunking.ExactlyOnceIff | tools/test_persistent_gemv.cpp:65-76 | the pushed ranges contain every index below `total` exactly once if and only if `total + chunks - 1` does not wrap 64 bits |
| Chunking.PushedCovers | tools/test_persistent_gemv.cpp:69-75 | after c turns of the loop exactly the indices below c*step are covered, once each |
| Chunking.PushedInside | tools/test_persistent_gemv.cpp:70-73 | every pushed range lies inside [0, total), whether or not the rounding-up sum wraps |
| Chunking.WrappedMisses | tools/test_persistent_gemv.cpp:68-72 | when the rounding-up sum wraps, the last index is in no range |
| Chunking.SomethingPushed | tools/test_persistent_gemv.cpp:69-75 | nothing is pushed exactly when there is nothing to do |
| PoolProtocol.InitInv | tools/test_persistent_gemv.cpp:24-26 | a new pool satisfies the protocol invariant |
| PoolProtocol.CallKeepsInv | tools/test_persistent_gemv.cpp:65-76 | pushing a call's chunks keeps the invariant: for each index, executions queued, running and done add up to the ones pushed |
| PoolProtocol.WakeKeepsInv | tools/test_persistent_gemv.cpp:59-77 | both `notify_all` calls keep the invariant; afterwards no worker is blocked while there is work |
| PoolProtocol.CheckKeepsInv | tools/test_persistent_gemv.cpp:30-37 | waiting, leaving or popping a task under the lock keeps the invariant, with `m_working` the number of running workers |
| PoolProtocol.StepKeepsInv | tools/test_persistent_gemv.cpp:39-40 | processing one index outside the lock keeps the invariant |
| PoolProtocol.FinishKeepsInv | tools/test_persistent_gemv.cpp:41-47 | the decrement and the done notification keep the invariant, so the caller never sleeps when all is done |
| PoolProtocol.SpuriousKeepsInv | tools/test_persistent_gemv.cpp:31 | a spurious wake-up of a worker keeps the invariant |
| PoolProtocol.NextInv | tools/test_persistent_gemv.cpp:24-82 | every enabled step of any thread keeps the invariant |
| PoolProtocol.DoneMeansExecuted | tools/test_persistent_gemv.cpp:80 | when the queue is empty and nobody works, every index ran as often as it was pushed, and exactly the indices pushed have their goal in the output |
| PoolProtocol.DoneMeansFinished | tools/test_persistent_gemv.cpp:80 | so, unless the rounding-up sum wrapped, every index ran once and the output is the goal in front and untouched behind |
| PoolRuns.RunInv | tools/test_persistent_gemv.cpp:24-82 | the invariant holds after every run and the number of workers never changes |
| PoolRuns.ParallelForRefinesLoop | tools/test_persistent_gemv.cpp:65-82 | after any earlier history and under any interleaving, a returned `parallel_for` whose rounding-up sum did not wrap has run each index once and left the array of the sequential loop |
| PoolRuns.ExactlyOnceInRunsIff | tools/test_persistent_gemv.cpp:65-82 | a returned call has run each index once if and only if that sum did not wrap; otherwise the last index never ran and its output is still the old one |
| PoolRuns.NotStuck | tools/test_persistent_gemv.cpp:26-82 | with at least one worker, a caller inside `parallel_for` or the destructor always leaves some thread a real step to take |
| PoolRuns.LoadSteps | tools/test_persistent_gemv.cpp:26-82 | every real step lowers the measure of work left, a spurious wake-up raises it by one |
| PoolRuns.RunLengthBound | tools/test_persistent_gemv.cpp:26-82 | a run is at most the work left plus two steps for each spurious wake-up long |
| PoolRuns.RestMeansReturned | tools/test_persistent_gemv.cpp:54-82 | a run that has come to rest has returned from the call, or from the destructor with the queue drained and every worker gone |
| PoolRuns.NoWorkersWaitIff | tools/test_persistent_gemv.cpp:24-25 | a pool without workers waits for ever exactly when there was something to do |
| WorkerPool.PersistentWorkerPool.constructor | tools/test_persistent_gemv.cpp:24-52 | the object starts as the step system's initial state |
| WorkerPool.PersistentWorkerPool.PushTasks | tools/test_persistent_gemv.cpp:66-76 | the in-place push loop makes exactly the call step |
| WorkerPool.PersistentWorkerPool.NotifyAllTasks | tools/test_persistent_gemv.cpp:59-77 | waking the blocked workers makes exactly the notify step |
| WorkerPool.PersistentWorkerPool.EvaluateDone | tools/test_persistent_gemv.cpp:78-81 | the caller returns or waits as the done predicate says |
| WorkerPool.PersistentWorkerPool.TakeTask | tools/test_persistent_gemv.cpp:29-38 | a worker with the lock waits, leaves, or pops the last task and counts itself |
| WorkerPool.PersistentWorkerPool.ProcessIndex | tools/test_persistent_gemv.cpp:40 | one index of the task body is written to the output |
| WorkerPool.PersistentWorkerPool.FinishTask | tools/test_persistent_gemv.cpp:41-47 | the decrement, and the wake-up of the caller when all is done |
| WorkerPool.PersistentWorkerPool.RequestStop | tools/test_persistent_gemv.cpp:54-58 | the stop flag is set and nothing else |
| WorkerPool.PersistentWorkerPool.Execute | tools/test_persistent_gemv.cpp:22-92 | any schedule takes the object where the step system goes, so results about runs hold of it |
| FloatFormats.Fp16ToFloat | src/xdna-q4-0-reference.cpp:101-136 | the loop over a subnormal significand computes the widened pattern |
| FloatFormats.WideningExact | src/xdna-q4-0-reference.cpp:101-136 | every finite half, subnormals included, becomes a binary32 pattern of exactly the same worth |
| FloatFormats.MagMonotone | src/xdna-q4-0-reference.cpp:138-153 | pattern order is magnitude order |
| FloatFormats.RoundingPicks | src/xdna-q4-0-reference.cpp:146-153 | the bias add keeps the sign and picks the prefix or its successor, never beyond 15 bits |
| FloatFormats.RoundsToNearestEven | src/xdna-q4-0-reference.cpp:146-153 | the result is nearest among all finite BF16 values, and even on a tie |
| FloatFormats.RoundingRelativeError | src/xdna-q4-0-reference.cpp:146-153 | a normal float moves by at most a 256th of itself |
| FloatFormats.RoundingFiniteIff | src/xdna-q4-0-reference.cpp:146-153 | rounding overflows to infinity exactly from 0x7F7F8000 on |
| FloatFormats.RoundingExactIff | src/xdna-q4-0-reference.cpp:146-153 | a float is unchanged exactly when its lower 16 bits are zero |
| FloatFormats.Bf16RoundTrip | src/xdna-q4-0-reference.cpp:138-153 | BF16 to binary32 and back is the identity on finite patterns |
| FloatFormats.ScaleRounding | src/xdna-q4-prepack.cpp:64-66 | no finite half scale is rounded to infinity, and each is off by at most a 256th |
| FloatFormats.ScaleRoundsToNearestEven | src/xdna-q4-prepack.cpp:64-66 | the packed scale itself is roundTiesToEven of the half: same sign, no finite BF16 value is nearer, and on a tie its pattern is even |
| FloatFormats.WideningSign | src/xdna-q4-0-reference.cpp:101-136 | every half keeps its sign, and infinities and NaNs keep their kind and payload |
| FloatFormats.SpecialRounding | src/xdna-q4-0-reference.cpp:146-153 | an infinity is rounded to itself, and a NaN stays one exactly between two bounds; below them it becomes an infinity, above a zero of the other sign |
| FloatFormats.ScaleNanIff | src/xdna-q4-prepack.cpp:64-66 | a NaN scale is packed as a NaN exactly when its payload is from 5 to 1019 |
| FloatFormats.UnitsOfOne | src/xdna-q4-0-reference.cpp:101-153 | the number one in each of the three formats |
| FloatFormats.ProductExact | src/xdna-q4-0-reference.cpp:80-92 | nibble times scale needs no rounding in binary32 |
| Q4Reference.MatrixAcceptedIff | src/xdna-q4-0-reference.cpp:41-61 | a span passes validation exactly when rows are whole blocks, the true product fits 64 bits and equals the byte count |
| Q4Reference.DequantizeRow | src/xdna-q4-0-reference.cpp:196-222 | the row is written in front and the rest untouched, or the right check refuses it and nothing changes |
| Q4Reference.RowAt | src/xdna-q4-0-reference.cpp:205-221 | value k of a block is its nibble, low half first and biased by 8, times the block's scale |
| Q4Reference.DotUnchecked | src/xdna-q4-0-reference.cpp:63-97 | for any rounding, the fused loop is the left fold in index order over the dequantized row |
| Q4Reference.DotF32 | src/xdna-q4-0-reference.cpp:224-235 | the first failing check, or the fold over the activations |
| Q4Reference.DotBf16 | src/xdna-q4-0-reference.cpp:237-248 | the first failing check, or the fold over the widened activations |
| Q4Reference.Bf16IsF32OnWidened | src/xdna-q4-0-reference.cpp:237-248 | the BF16 product is the float product on widened activations, operation for operation |
| Q4Reference.Gemv | src/xdna-q4-0-reference.cpp:250-300 | exactly the row products are written, or the first failing check refuses and nothing changes |
| Q4Products.RowRoundTrip | src/xdna-q4-0-reference.cpp:205-221 | dequantizing any row of written blocks gives back each value: its number less eight, times its own block's scale |
| Q4Products.RowAlone | src/xdna-q4-0-reference.cpp:268-273 | a row reads the same inside a matrix and on its own |
| Q4Products.EntryIsRowDot | src/xdna-q4-0-reference.cpp:250-300 | entry r of a product is what the dot product returns for the bytes of row r alone |
| Q4Products.StackedProduct | src/xdna-q4-0-reference.cpp:250-300 | the product of two matrices stacked on each other is the upper's product followed by the lower's |
| Q4Products.UnitProduct | src/xdna-q4-0-reference.cpp:250-300 | over exact arithmetic the product with a unit vector is that column of the matrix, in row order |
| Q4Products.RowAcceptedIff | src/xdna-q4-0-reference.cpp:155-173 | a row span is accepted exactly when it is whole blocks of which every byte is there |
| Q4Products.DotReason | src/xdna-q4-0-reference.cpp:224-248 | which of the four reasons a dot product gives, in order, with the conditions written out |
| Q4Products.GemvReason | src/xdna-q4-0-reference.cpp:250-300 | the same for a product, with overflow of the true byte count and five reasons |
| PackedLayout.LocateOffset | src/xdna-q4-prepack.cpp:43-66 | when a row's bytes hold its groups, the slot of a byte can be told from its address |
| PackedLayout.OffsetInside | src/xdna-q4-prepack.cpp:43-66 | and every address is inside the image |
| PackedLayout.OffsetLocate | src/xdna-q4-prepack.cpp:43-66 | when the groups fill the row, every byte of the image is the address of one nibble or scale byte |
| PackedLayout.SlotAddress | src/xdna-q4-prepack.cpp:43-66 | the address of every slot: columns in order, in each the nibble plane before the scale plane, rows in order |
| PackedLayout.DistinctIff | src/xdna-q4-prepack.cpp:43-66 | for any layout, no two slots share an address if and only if 16 bytes for each group fit in a row's bytes |
| PackedLayout.OntoIff | src/xdna-q4-prepack.cpp:43-66 | then the slots take the whole image if and only if the groups fill the row |
| PackedLayout.Overlap | src/xdna-q4-prepack.cpp:54-61 | otherwise a byte of the first row's groups is also the first of the next row, or of the scales |
| Prepack.LayoutMeaning | src/xdna-q4-prepack.cpp:9-32 | for any arguments: a layout exists exactly for whole groups and divisible rows, with 4 columns and groups of 32 for zero arguments; all its sizes in 64 bits; a row's bytes hold its groups exactly from group size 32 on, and are filled by them exactly for size 32 (and one case of 33) |
| Prepack.Pack | src/xdna-q4-prepack.cpp:34-70 | for any group size the writes of the loops fall in their order; when the groups fill the rows they leave the image and change nothing behind it; nothing is written for zero columns or a refused shape |
| Prepack.PackGroup | src/xdna-q4-prepack.cpp:60-67 | one group makes the next eighteen writes |
| Prepack.SlotWritten | src/xdna-q4-prepack.cpp:46-68 | when a row's bytes hold its groups, each slot's byte is written once and stays |
| Prepack.OthersUntouched | src/xdna-q4-prepack.cpp:46-68 | for any layout a byte that is no slot's address is never written |
| Prepack.WrittenOnceIff | src/xdna-q4-prepack.cpp:43-68 | every byte of the image is written once and no other byte at all, if and only if the groups fill the rows |
| Prepack.LosslessIff | src/xdna-q4-prepack.cpp:43-68 | the packed planes hold every byte of every matrix, if and only if a row's bytes hold its groups |
| Prepack.ImageWritten | src/xdna-q4-prepack.cpp:34-70 | when the groups fill the rows, memory is the image in front and untouched behind |
| Prepack.DequantizePacked | src/xdna-q4-prepack.cpp:72-112 | for any group size the values of the packed rows are written in the order of the loops |
| Prepack.OutputMeaning | src/xdna-q4-prepack.cpp:85-110 | for any group size a column ends as its own row's value of that number, although earlier rows may have written there, or keeps its old value beyond the row's groups |
| Prepack.PackThenDequantize | src/xdna-q4-prepack.cpp:34-112 | a row of planes that hold a matrix is read as the dequantized row of the blocks with only the scale rounded to BF16 |
| Prepack.PackAndReadBack | src/xdna-q4-prepack.cpp:34-112 | the whole matrix through both functions, with any group size from 32 on, is row by row the dequantized matrix with rounded scales, followed by unwritten columns |
| SimdGemv.HighNibbles | src/cpu-q4-gemv-engine.cpp:18-69 | the 16-bit shift and mask give each byte's high nibble in spite of crossing byte borders |
| SimdGemv.HorizontalAddTotal | src/cpu-q4-gemv-engine.cpp:18-69 | the shuffle sequence adds up all eight lanes |
| SimdGemv.BlockStepTotal | src/cpu-q4-gemv-engine.cpp:18-69 | one block adds scale times the 32 nibble products to the lane total |
| SimdGemv.DotFast | src/cpu-q4-gemv-engine.cpp:18-69 | over exact arithmetic the eight-lane kernel equals the reference fold over whole blocks |
| SimdGemv.DotTwoRows | src/cpu-q4-gemv-engine.cpp:72-126 | the two-row kernel gives both rows' reference folds |
| SimdGemv.GuardExactIff | src/cpu-q4-gemv-engine.cpp:148-151 | the buffer test refuses the short buffers and no others, for all buffer lengths, if and only if the matrix has fewer than 2^64 bytes |
| SimdGemv.EmptyBufferPasses | src/cpu-q4-gemv-engine.cpp:148-151 | 2^34 rows of 2^35 values: an empty buffer passes |
| SimdGemv.Run | src/cpu-q4-gemv-engine.cpp:142-177 | a buffer the wrapped test refuses leaves the output alone, one that holds the matrix gives exactly output[0..N) through both paths, and one that is short and passes is an overrun |
| SimdGemv.RunSingleCore | src/cpu-q4-gemv-engine.cpp:153-164 | row pairs and the odd last row give every entry and touch nothing else |
| SimdGemv.RunThreads | src/cpu-q4-gemv-engine.cpp:165-176 | the same whatever order the threads take the row pairs in |
| SimdGemv.RunBf16 | src/cpu-q4-gemv-engine.cpp:179-190 | the same on the widened activations |
| Precision.ScaleWorth | src/xdna-q4-prepack.cpp:64-66 | as real numbers, the rounded scale is within 2^-8 of the scale |
| Precision.DotErrorBound | tools/audit-scale-precision.cpp:82-138 | weights each off by 2^-8 of themselves move a dot product of any length by at most 2^-8 of the sum of term magnitudes |
| Precision.PackedDotError | src/xdna-q4-prepack.cpp:34-112 | for every matrix with finite scales and every vector, the packed product is within 2^-8 of the sum of absolute terms of the reference product |
| Precision.ScaleSurvivesIff | src/xdna-q4-prepack.cpp:64-66 | a scale is unchanged exactly when BF16 can represent it, which its widened pattern shows |
| Precision.PackedRowExactIff | src/xdna-q4-prepack.cpp:34-112 | the packed row is the reference row exactly when every block's scale is representable or its values are all zero |
| Precision.InterleavedDot | tools/audit-scale-precision.cpp:82-121 | the interleaved loops of forms A and B compute the fold in index order |
| Precision.DenseDot | tools/audit-scale-precision.cpp:130-138 | the plain loop of form C computes the same fold |
| Precision.AuditRow | tools/audit-scale-precision.cpp:82-138 | the three results are the folds over the reference row, over the row with rounded scales and over the row read back from the packed image; C equals B exactly, and both are within the bound of A |
| LittleEndian.DecodeEncode | tests/test-gate1.cpp:20-38 | a value that fits its width is read back |
| LittleEndian.EncodeDecode | src/xdna-gate1.cpp:37-58 | any bytes are the encoding of what they are read as |
| LittleEndian.ReadU16 | src/xdna-gate1.cpp:37-41 | the two bytes' little-endian value |
| LittleEndian.ReadU32 | src/xdna-gate1.cpp:43-49 | the four bytes' little-endian value |
| LittleEndian.ReadU64 | src/xdna-gate1.cpp:51-58 | the loop's sum is the eight bytes' little-endian value |
| LittleEndian.WordsRead | src/xdna-gate1.cpp:37-58 | the three readers give the words written out byte by byte, lowest byte first |
| LittleEndian.EncodedByte | tests/test-gate1.cpp:17-38 | byte k of a written word is the word divided by 256^k, modulo 256 |
| LittleEndian.HeldWords | tests/test-gate1.cpp:20-38 | a word written anywhere in an image is the word read there |
| LittleEndian.ByteVector.PutU16 | tests/test-gate1.cpp:20-24 | the encoding is in place and every other byte as before |
| LittleEndian.ByteVector.PutWord | tests/test-gate1.cpp:26-38 | the byte loop puts the encoding in place and keeps every other byte |
| TextSearch.Find | src/xdna-gate1.cpp:87 | the position of the first occurrence, or none |
| TextSearch.FirstOccurrence | src/xdna-gate1.cpp:84-92 | a text is found exactly when it occurs, and what follows is behind its first occurrence |
| JsonScan.JsonValueStart | src/xdna-gate1.cpp:84-107 | the value begins after the first quoted key, blanks, a colon and blanks, or there is none |
| JsonScan.JsonString | src/xdna-gate1.cpp:109-141 | the escape loop returns the literal's text up to its first unescaped quote |
| JsonScan.JsonObject | src/xdna-gate1.cpp:143-176 | the depth loop returns the text up to the closing brace; the unsigned depth never underflows |
| JsonScan.JsonFirstArrayString | src/xdna-gate1.cpp:178-204 | the first literal after the bracket, with escapes kept as they are |
| JsonScan.ShortestBalanced | src/xdna-gate1.cpp:143-176 | the object is the shortest prefix whose braces balance outside string literals, and none is returned only if none balances |
| JsonText.SpellingRoundTripIff | src/xdna-gate1.cpp:109-141 | a string written in any way section 7 of RFC 8259 has (plain, two-character escapes, codes and surrogate pairs for UTF-8 bytes) is read as itself if and only if no `\u` escape is used |
| JsonText.CodeMisread | src/xdna-gate1.cpp:118-130 | the capital A written by its code is read as five characters |
| JsonText.StringRoundTrip | src/xdna-gate1.cpp:109-141 | so the printer's text of every string is read as that string |
| JsonText.ObjectExtent | src/xdna-gate1.cpp:143-176 | for any printed object, nested and with quotes, braces and backslashes in strings, exactly its text is taken |
| JsonText.PastString | src/xdna-gate1.cpp:84-92 | a key search passes over a printed string unless the string is the key or ends in a quote and the key |
| JsonText.PastValue | src/xdna-gate1.cpp:84-92 | it passes over a printed value of any nesting in which no key or string looks so |
| JsonText.StringLookup | src/xdna-gate1.cpp:84-141 | what is found for a key among printed string fields: the first such field's value, nothing when an earlier value looks like the key, or the text behind |
| JsonText.ObjectAmongMembers | src/xdna-gate1.cpp:84-176 | the object under a key is taken exactly, behind any members that do not mention the key, with any blanks around the colon and any text behind |
| JsonText.StringAmongMembers | src/xdna-gate1.cpp:84-141 | in the same place a string is found as itself exactly when it is spelled without `\u` escapes |
| JsonText.ObjectLookup | src/xdna-gate1.cpp:84-176 | in a printed object, the object under a key at any place among the members comes back as its own text |
| JsonText.RawRead | src/xdna-gate1.cpp:178-204 | an array literal comes back with each backslash left out and the character behind it as it is |
| JsonText.ArrayAmongMembers | src/xdna-gate1.cpp:178-204 | so does the first literal of an array under a key, behind members that do not mention it |
| JsonText.OtherKinds | src/xdna-gate1.cpp:109-204 | only a value that begins with a quote, a brace or a bracket is taken for a string, an object or an array |
| JsonText.Unterminated | src/xdna-gate1.cpp:109-204 | a literal without its closing quote is none |
| Decimal.DigitsValue | src/xdna-gate1.cpp:206-218 | a printed number is non-empty digits of that value without a leading zero |
| Decimal.FromCharsOfDigits | src/xdna-gate1.cpp:211-217 | a printed number is read back exactly when it fits 32 bits |
| Gate1.ReadFixedString | src/xdna-gate1.cpp:60-66 | the field's text up to its first zero byte |
| Gate1.TrimBlanks | src/xdna-gate1.cpp:68-82 | blanks are dropped at both ends |
| Gate1Conditions.TrimMeaning | src/xdna-gate1.cpp:68-82 | the four blanks are dropped at both ends and nothing else is |
| Gate1Conditions.BlankDecimal | src/xdna-gate1.cpp:206-218 | a printed number is read with any blanks around it, if it fits 32 bits |
| Gate1.JsonDecimal | src/xdna-gate1.cpp:206-224 | the 32-bit number a string value stands for, if all of it is digits |
| Gate1.FirstSection | src/xdna-gate1.cpp:248-272 | the first section of the kind, or none if there is none or it reaches outside the image |
| Gate1.CheckContainer | src/xdna-gate1.cpp:283-316 | the first failing container check, and none exactly for a container whose table and sections are inside |
| Gate1Conditions.ContainerMessage | src/xdna-gate1.cpp:285-316 | the message for each refused container, by the first condition that fails, with offsets and byte order written out |
| Gate1Conditions.ContainerValidIff | src/xdna-gate1.cpp:285-318 | a container is reported as valid if and only if it has at least 456 bytes, the magic, its own length, a count from 1 to 0x10000 with the table inside, and every section inside; otherwise the record holds nothing but the message |
| Gate1Conditions.HeaderFields | src/xdna-gate1.cpp:318-322 | mode, action mask, mode name and platform text of any good container, at their offsets |
| Gate1Conditions.SectionsReported | src/xdna-gate1.cpp:324-333 | a section is reported exactly when the table has its kind, and a missing one is an error |
| Gate1Conditions.FirstOfKind | src/xdna-gate1.cpp:248-273 | of several sections of a kind the first is taken, with the offset and size in its header |
| Gate1Conditions.TextsMessage | src/xdna-gate1.cpp:335-362 | the messages for a missing object and for a missing or malformed driver number |
| Gate1Conditions.DriverNoneIff | src/xdna-gate1.cpp:349-362 | the driver is incomplete exactly when one of its seven numbers is |
| Gate1Conditions.PartitionRead | src/xdna-gate1.cpp:371-391 | the partition section's width and first start column at their offsets, or why it is refused |
| Gate1Conditions.JudgedMeaning | src/xdna-gate1.cpp:393-412 | the profile decides, with its message, and mode 0 makes it hardware |
| Gate1.ReadPartition | src/xdna-gate1.cpp:370-411 | the binary fields and verdict, or the bounds error, for any section |
| Gate1.ParseGate1Metadata | src/xdna-gate1.cpp:283-411 | for any bytes at all: every read is inside the image and the record is the specified one |
| Gate1.Verdict | src/xdna-gate1.cpp:386-410 | validated if and only if there is no error message, and then container, sections and profile are all right; hardware is that and mode 0 |
| Gate1.ValidatedColumnsFit | src/xdna-gate1.cpp:386-402 | for any bytes, a validated target's start plus width is at most `num_columns` as integers, although the code adds in 32 bits |
| Gate1Texts.DsaRecovered | src/xdna-gate1.cpp:341-343 | what the three DSA fields read as, for any three strings |
| Gate1Texts.NumberRecovered | src/xdna-gate1.cpp:344-349 | each driver number is found under its own key, and the array key is not found among them |
| Gate1Texts.OverlayRecovered | src/xdna-gate1.cpp:350-351 | the start column is found in the array behind the string fields |
| Gate1Texts.DriverRecovered | src/xdna-gate1.cpp:344-368 | all seven 32-bit driver numbers come back |
| Gate1RoundTrip.FixtureXclbin | tests/test-gate1.cpp:40-86 | the writer leaves every header word, section header and payload in its place |
| Gate1RoundTrip.AddSection | tests/test-gate1.cpp:74-84 | one turn of the section loop adds a section and keeps all bytes around its header |
| Gate1RoundTrip.HeaderRecovered | src/xdna-gate1.cpp:283-322 | a written container is accepted and its mode, action mask and platform come back |
| Gate1RoundTrip.SectionsFound | src/xdna-gate1.cpp:324-326 | the three sections are found with exactly their payloads |
| Gate1RoundTrip.RoundTrip | src/xdna-gate1.cpp:283-411 | parsing any image with the written layout gives the record of the written fields, whatever the padding |
| Gate1RoundTrip.WriteThenParse | tests/test-gate1.cpp:40-120 | the writer followed by the parser returns the written fields |
| Gate1RoundTrip.StringsRecoveredIff | src/xdna-gate1.cpp:318-343 | header fields and vendor always come back; board id and name exactly when not hidden by an earlier value |
| Gate1RoundTrip.VendorHidesName | src/xdna-gate1.cpp:341-343 | a vendor called `name` makes the name read as empty |
| Gate1RoundTrip.AcceptedIff | src/xdna-gate1.cpp:386-410 | an image is a valid target exactly when the written fields satisfy the profile over the integers, and hardware exactly with mode 0 |
| GgufStream.SkipValue | tools/xdna-gguf-info.cpp:167-206 | for any stream, good or failed, and any largest file offset, the cursor ends where the skip specification says, or the stack ran out |
| GgufStream.SkipMeta | tools/xdna-kernel-bench.cpp:46-62 | the other tool's skipper has the same contract, so the two move alike on any stream |
| GgufStream.SkipExact | tools/xdna-gguf-info.cpp:167-206 | a well-formed value of any nesting is skipped exactly if there is a stack frame per level, and not otherwise |
| GgufStream.SkipManyExact | tools/xdna-gguf-info.cpp:193-202 | the same for the elements of an array |
| GgufStream.NumberWidths | tools/xdna-gguf-info.cpp:167-206 | the width of a number of each type, and that other types skip nothing |
| GgufStream.FailedStays | tools/xdna-gguf-info.cpp:167-206 | a failed stream stays where it is, whatever is read, sought or skipped |
| GgufStream.PastTheEnd | tools/xdna-gguf-info.cpp:167-206 | a seek past the end succeeds, and the next read fails and delivers nothing |
| GgufStream.ShortRead | tools/xdna-gguf-info.cpp:158-165 | a read of more than is left delivers what is left, and fails |
| GgufStream.SeekFails | tools/xdna-gguf-info.cpp:167-206 | a seek fails exactly before the beginning or beyond the largest offset |
| GgufStream.HugeLength | tools/xdna-gguf-info.cpp:167-206 | a length of 2^63 or more becomes a seek backwards |
| GgufFile.NextString | tools/xdna-gguf-info.cpp:158-165 | the text, zero-filled when bytes are missing, or empty beyond the limit |
| GgufFile.ReadStringIff | tools/xdna-gguf-info.cpp:158-165 | a text is returned and consumed exactly up to 1,000,000 bytes |
| GgufFile.TruncatedText | tools/xdna-gguf-info.cpp:158-165 | without a whole length there is no text, and without all its bytes it is filled up with zeros |
| GgufFile.LongKeyMisread | tools/xdna-gguf-info.cpp:264-267 | after a longer key its own first four bytes are taken for the value's type |
| GgufFile.ReadMetadata | tools/xdna-gguf-info.cpp:262-289 | the loop with its special keys follows the entry-by-entry specification on any stream |
| GgufFile.SkipMetadata | tools/xdna-kernel-bench.cpp:37-63 | the bare skipping loop follows its specification on any stream |
| GgufFile.EntryExact | tools/xdna-gguf-info.cpp:263-289 | a well-formed entry is understood and both tools end behind it |
| GgufFile.NumberKeys | tools/xdna-gguf-info.cpp:271-285 | which of the five numbers each of the eight keys sets |
| GgufFile.OtherKeys | tools/xdna-gguf-info.cpp:269-288 | the architecture key sets the name, and every other entry changes nothing |
| GgufFile.MetadataExact | tools/xdna-gguf-info.cpp:263-289 | over any well-formed metadata both tools reach the tensor table, and every entry was understood with the architecture name known by then |
| GgufFile.BareMetadataExact | tools/xdna-kernel-bench.cpp:37-63 | the benchmark tool reaches the table for keys of any length |
| GgufTensors.ReadTable | tools/xdna-gguf-info.cpp:316-327 | the tensor loop follows its specification on any stream |
| GgufTensors.FindTensor | tools/xdna-kernel-bench.cpp:71-97 | the search loop follows its specification on any stream |
| GgufTensors.TableExact | tools/xdna-gguf-info.cpp:316-327 | every name, dimension list, type and offset of a well-formed table comes back |
| GgufTensors.SearchFindsFirst | tools/xdna-kernel-bench.cpp:71-97 | the first entry with the name is found and the stream stands behind it, or there is none |
| GgufTensors.ListGguf | tools/xdna-gguf-info.cpp:233-327 | the whole listing of a stream, or a bad magic number |
| GgufTensors.LoadGgufTensor | tools/xdna-kernel-bench.cpp:19-114 | on any stream: the dimensions and bytes loaded, or that there is no such tensor of two dimensions, or a bad magic number |
| GgufTensors.FileRoundTrip | tools/xdna-gguf-info.cpp:233-327 | listing a well-formed file gives back version, understood metadata and all tensors |
| GgufTensors.ToolsAgree | tools/xdna-kernel-bench.cpp:23-114 | in a well-formed file the first tensor of the table with the name is loaded, from the place behind its entry |
| GgufTensors.LoadedFrom | tools/xdna-kernel-bench.cpp:98-113 | what is loaded are the file's bytes at the aligned end of the tensor's own entry plus its offset |
| GgufTensors.LoadedShape | tools/xdna-kernel-bench.cpp:98-113 | only a tensor of two dimensions is loaded, K first and N second, with a buffer of its byte count |
| GgufTensors.LoadedBytes | tools/xdna-kernel-bench.cpp:105-107 | that count is the reference's for a matrix of this shape |
| GgufTensors.LoadsOwnDataIff | tools/xdna-kernel-bench.cpp:98-113 | these are the tensor's own bytes, for every data section, if and only if it has none or the entries behind its own fit before the next multiple of 32; with dimensions in every entry, only for the last |
| GgufInventory.Summarize | tools/xdna-gguf-info.cpp:302-360 | every total, every per-type entry and every entry of the shape histogram is the 64-bit or 32-bit sum over exactly the tensors it is about |
| GgufInventory.ShapeTextIff | tools/xdna-gguf-info.cpp:355-358 | two matrices share a histogram entry exactly when they have the same dimensions |
| GgufInventory.HistogramMeans | tools/xdna-gguf-info.cpp:302-360 | each shape that occurs counts the matrices with its dimensions, and all entries add up to all matrices, modulo 2^32 |
| GgufInventory.SplitOf | tools/xdna-gguf-info.cpp:339-350 | capable and CPU-only bytes make up all bytes; capable tensors are among the Q4_0 ones |
| GgufInventory.BreakdownAddsUp | tools/xdna-gguf-info.cpp:352-354 | bytes and counts by type name add up to all bytes and all tensors |
| GgufInventory.Conservation | tools/xdna-gguf-info.cpp:302-360 | when the true totals fit their counters, the printed totals are conserved exactly |
| GgufInventory.ConservedModulo | tools/xdna-gguf-info.cpp:302-360 | for any table, overflowing or not, the printed totals and both breakdowns are conserved modulo 2^64 and 2^32 |
| GgufInventory.CapableBytes | tools/xdna-gguf-info.cpp:329-345 | a capable tensor's size is the byte count the Q4_0 reference requires for its matrix |
| GgufInventory.CapableIff | tools/xdna-gguf-info.cpp:334-336 | a tensor is capable exactly when it is a Q4_0 matrix whose row length the reference accepts |
| GgufInventory.SizeMeaning | tools/xdna-gguf-info.cpp:323-332 | a tensor's size is that of its blocks, from the true number of values modulo 2^64 |
| GgufInventory.BlockSizeIs | tools/xdna-gguf-info.cpp:81-114 | values in a block of every type |
| GgufInventory.PlainSizes | tools/xdna-gguf-info.cpp:116-125 | bytes of a value of the plain types |
| GgufInventory.LegacySizes | tools/xdna-gguf-info.cpp:126-131 | bytes of a block of the 32-value types |
| GgufInventory.SuperblockSizes | tools/xdna-gguf-info.cpp:132-140 | bytes the tool counts for a block of the 256-value types |
| GgufInventory.LegacyNames | tools/xdna-gguf-info.cpp:46-55 | names of types 0 to 9 |
| GgufInventory.SuperblockNames | tools/xdna-gguf-info.cpp:56-61 | names of types 10 to 15 |
| GgufInventory.LowBitNames | tools/xdna-gguf-info.cpp:62-69 | names of types 16 to 23 |
| GgufInventory.PlainNames | tools/xdna-gguf-info.cpp:70-76 | names of types 24 to 30 |
| GgufInventory.UnknownKind | tools/xdna-gguf-info.cpp:46-140 | any other number is an unknown type of one byte a value |
| Topology.TrimSpaces | src/xdna-device.cpp:16-28 | C-locale spaces are dropped at both ends |
| Topology.Lowercase | src/xdna-device.cpp:30-38 | every capital letter becomes small |
| Topology.ReplaceSigns | src/xdna-device.cpp:202-213 | the in-place loop turns every UTF-8 multiplication sign into `x` and changes nothing else |
| Topology.ScanNumberAfter | src/xdna-device.cpp:51-72 | the non-zero 32-bit number behind the separators, if any |
| Topology.ScanNumberBefore | src/xdna-device.cpp:74-94 | the non-zero 32-bit number before the spaces, if any |
| Topology.FindNamedNumber | src/xdna-device.cpp:96-106 | at the first occurrence of the name, the number behind it or else the one before it |
| Topology.FindNumbers | src/xdna-device.cpp:108-127 | all non-zero 32-bit digit runs in order |
| Topology.ParseTopology | src/xdna-device.cpp:201-231 | the parser's choice among named numbers, short names and bare numbers |
| TopologyRoundTrip.FormatRoundTrip | src/xdna-device.cpp:201-240 | the printer's text is read back for all valid topologies, and `unknown` is none |
| TopologyRoundTrip.NamedForm | src/xdna-device.cpp:215-219 | `rows=R columns=C`, with any spaces, `=` and `:`, is read as R by C |
| TopologyRoundTrip.ReversedForm | src/xdna-device.cpp:215-219 | `C columns x R rows` is read as R by C |
| TopologyRoundTrip.CompactForm | src/xdna-device.cpp:226-229 | two numbers with any text between them free of digits and of the names' letters are rows and columns |
| TopologyRoundTrip.CompactSigns | src/xdna-device.cpp:202-229 | `RxC`, `RXC` and the multiplication sign are such texts |
| TopologyRoundTrip.RowsByColumns | src/xdna-device.cpp:215-219 | `R rows x C columns` is read as R by C whatever follows that does not begin with a number |
| TopologyForms.RowsByCols | src/xdna-device.cpp:221-224 | `R rows x C cols` is read as R by C, whatever follows that neither begins with a number nor holds `columns` |
| TopologyForms.NamedShortForm | src/xdna-device.cpp:221-224 | `rows=R cols=C`, with any spaces, `=` and `:`, is read as R by C |
| TopologyForms.CaseIgnored | src/xdna-device.cpp:30-38 | texts that differ only in capitals are read alike |
| TopologyForms.SpacesIgnored | src/xdna-device.cpp:16-28 | spaces around a text do not matter |
| TopologyForms.CompactZero | src/xdna-device.cpp:108-127 | two numbers of which one is zero or beyond 32 bits are no topology |
| TopologyForms.OneOrThree | src/xdna-device.cpp:226-229 | neither a single number nor three are one |
| TopologyForms.Printed | src/xdna-device.cpp:233-240 | what the printer writes, for valid and invalid topologies |
| TopologyRoundTrip.ParsedIsValid | src/xdna-device.cpp:193-231 | no text is read as a topology with a zero in it |
| TopologyRoundTrip.NumberBehindWins | src/xdna-device.cpp:96-106 | without the `x` the rows are lost, unless they equal the columns |
| GemvEngine.ProductPrefix | src/xdna-gemv-engine.cpp:177-209 | a product does not depend on stale activations behind its own |
| GemvEngine.XdnaGemvEngine.constructor | src/xdna-gemv-engine.cpp:60-84 | counters at zero and an empty scratch buffer |
| GemvEngine.XdnaGemvEngine.StartTokenProfile | src/xdna-gemv-engine.cpp:139-145 | a new profile starts at zero under the next index and leaves the buffer alone |
| GemvEngine.XdnaGemvEngine.EndTokenProfile | src/xdna-gemv-engine.cpp:147-156 | transitions are twice the dispatches, and the counters stay |
| GemvEngine.XdnaGemvEngine.Run | src/xdna-gemv-engine.cpp:177-194 | one more dispatch even when the run throws; for a buffer that holds the matrix the reference product in front and untouched behind |
| GemvEngine.XdnaGemvEngine.Widen | src/xdna-gemv-engine.cpp:202-207 | the buffer only grows, its front is the widened activations, its stale tail stays |
| GemvEngine.XdnaGemvEngine.RunBf16 | src/xdna-gemv-engine.cpp:196-209 | the product of the widened activations of this call, whatever the buffer held |
| GemvEngine.XdnaGemvEngine.Session | src/xdna-gemv-engine.cpp:139-209 | over any sequence of calls, up to the first that reads outside its buffer, each reply is a function of its own arguments |
| GemvEngine.CountsRuns | src/xdna-gemv-engine.cpp:139-186 | since the last profile start the counter is the number of runs, thrown ones included |
| GemvEngine.CountsCompletedIff | src/xdna-gemv-engine.cpp:139-190 | it is the number of completed runs exactly when none was refused; that this means every buffer was large enough holds exactly if one was refused or none overran, so always below 2^64 bytes |
| Graph.SupportedGraph | src/ggml-xdna.cpp:53-109 | when all nodes are supported and have data, every node is run, and in a dataflow graph each output ends as the reference product over its whole row length |
| Graph.XdnaBackend.RunNode | src/ggml-xdna.cpp:93-102 | one node changes memory by its reference product and nothing else |
| Graph.XdnaBackend.ComputeGraph | src/ggml-xdna.cpp:75-109 | memory ends as the node-by-node composition of reference products, nodes that are no such product or lack data changing nothing; false only for an empty graph |
| Graph.RefusedYetRunIff | src/ggml-xdna.cpp:53-103 | a node `supports_op` refuses is run exactly when it is a product with data whose row length is no multiple of 32 or whose row count is no multiple of 4 |
| Graph.RefusedExample | src/ggml-xdna.cpp:63-96 | 3 rows of 40 values: refused, and run |
| Graph.SupportedAloneIff | src/ggml-xdna.cpp:75-109 | as many nodes are run as among the supported nodes alone exactly when no refused node is run, and then memory ends as theirs |
| Graph.TailActivationsUnused | src/ggml-xdna.cpp:93-101 | what a node writes depends on the activations of its whole blocks only, which leave some out exactly when the row length is no multiple of 32 |
| Graph.EquationsHold | src/ggml-xdna.cpp:75-109 | in a graph that writes no input too late, every node's equation holds in the final memory at once |
| Graph.Untouched | src/ggml-xdna.cpp:75-109 | a buffer that is no node's output keeps its contents |
| Metrics.EvaluateCpu | src/cpu-q4-gemv-engine.cpp:192-226 | the loop's accumulators are the sums and maximum they are named for |
| Metrics.EvaluateXdna | src/xdna-gemv-engine.cpp:211-248 | the other engine's loop, with the same sums |
| Metrics.EvaluateBoth | src/xdna-gemv-engine.cpp:211-248 | both engines' records hold the cosine, maximum and mean error and verdict of the two vectors given; the cosine is in [-1, 1] and the mean error not above the maximum |
| Metrics.DistanceIs | src/cpu-q4-gemv-engine.cpp:208-215 | l2_diff = n_act + n_ref - 2 dot, and it is not negative |
| Metrics.CauchySchwarz | src/cpu-q4-gemv-engine.cpp:208-215 | dot^2 <= n_act * n_ref for vectors of any length |
| Metrics.CosineBounded | src/cpu-q4-gemv-engine.cpp:221-222 | the reported cosine lies in [-1, 1] |
| Metrics.AbsSumBound | src/cpu-q4-gemv-engine.cpp:208-219 | max_err <= abs_sum <= count * max_err |
| Metrics.MaxErrorCovers | src/cpu-q4-gemv-engine.cpp:208-212 | no element's error is above the maximum, and one attains it |
| Metrics.IdenticalPassesIff | src/cpu-q4-gemv-engine.cpp:217-224 | identical vectors pass exactly when their squared norm is above the threshold |
| Metrics.Threshold | src/cpu-q4-gemv-engine.cpp:222-224 | a pair with cosine 0.9999 passes and one with 0.9998 does not |
| Metrics.OneElement | src/cpu-q4-gemv-engine.cpp:207-217 | each sum over one pair |
| Metrics.Stretches | src/cpu-q4-gemv-engine.cpp:207-217 | over two stretches the sums add up and the maximum is the larger one |
| Metrics.BandwidthMeans | src/cpu-q4-gemv-engine.cpp:199-202 | bytes per microsecond in gigabytes per second |

## Left out

- XRT, DRM and sysfs calls, asset search, timing, environment variables and all printing: foreign calls and formatting.
- The two 64 MiB staging buffers of the engine, which `run` never uses, and the staging-ring tool.
- Q4Reference.DequantizeRow, Q4Reference.Gemv: do not model the null-pointer checks; spans carry their own length here.
- SimdGemv.Run, SimdGemv.DotFast: do not model binary32 rounding of the lane order and fused multiply-add; they are compared over exact arithmetic, with scales and conversions left arbitrary.
- SimdGemv.Run: says nothing of the output after an overrun, where the source reads outside the buffer; `GemvEngine.XdnaGemvEngine.Session` ends there.
- Prepack.Pack, Prepack.DequantizePacked: require that every address the loops touch lies in the buffers, and so do not model 64-bit wrap of an address; unaligned 16-bit stores are plain byte stores.
- FloatFormats.RoundsToNearestEven: is about finite values; infinities and NaNs, which have no distance, are in `FloatFormats.SpecialRounding`. The sign of a zero has no worth and is stated separately.
- PoolProtocol.CallKeepsInv: does not model the 32-bit wrap of `m_working`, which would need 2^31 workers, nor `chunks == 0`, which divides by zero; task functions that throw are not modelled.
- Several callers inside `parallel_for` at once: the source has one, and the step system has one.
- Gate1.ParseGate1Metadata: the `size_t` range tests of `find_section` are always false for 64-bit sizes and are not modelled. Reading the file, `format_gate1_metadata`, argument parsing and the status table are not part of this model.
- JsonText.SpellingRoundTripIff: a surrogate that is not one of a pair stands for nothing and is left out, as section 8.2 of RFC 8259 leaves its meaning open.
- GgufStream.SkipValue: when a stream is malformed a negative seek can make the recursion endless; the stack depth is a parameter and running out of it an outcome, so nothing is claimed for a stack overflow itself. The largest file offset is a parameter.
- GgufTensors.LoadGgufTensor: a name length or a byte count that cannot be allocated throws in the source and is zero-filled here. `GgufTensors.LoadsOwnDataIff` is about files of fewer than 2^63 bytes whose data section begins at the next multiple of 32 behind the table.
- GgufInventory.Summarize: does not model the printed percentages.
- Topology.ParseTopology: sysfs discovery and architecture names, which use the same helpers, are not part of this model.
- GemvEngine.XdnaGemvEngine.Run: does not model the mutex, timings or the hardware handles; calls are sequential, as `run_bf16` needs, since it fills the buffer before it takes the lock.
- Graph.XdnaBackend.ComputeGraph: two tensors share an array or nothing; partly overlapping data, null backend and null node lists are not modelled, nor negative shapes.
- Metrics.EvaluateCpu: sums and roots are exact; a mean over no elements is an absent value instead of NaN.
