# A verified model of the batching, sharding, scheduling and filtering code

The repository carries two vendored trees, verl (`task/verl`) and vLLM (`task/vllm-src`), and the scripts that
generate evaluators for them. This project models the parts that do index arithmetic, packing, sweeping and stateful
filtering, in Dafny 4.11, and proves what those parts are for. `dafny verify dfyconfig.toml` checks all of it.

Tensor contents are opaque rows, or opaque elements of flat row-major buffers. Arithmetic is exact: `int`, `nat` and
`real`. Exceptions are values of `Result` datatypes. A method follows its source loop by loop; a function stands for
an expression or comprehension, or for the value a loop computes.

| file | what it models |
|---|---|
| `Rows.dfy` | torch and numpy row operations on one column, each as a gather by an index vector |
| `DataProtos.dfy`, `DataConcat.dfy`, `Transfer.dfy`, `Unions.dfy`, `InPlace.dfy`, `RowClosure.dfy`, `UnfoldColumns.dfy` | `DataProto` and `DataProtoFuture` |
| `DeepEqual.dfy`, `ArrayUnion.dfy` | `_deep_equal` and `_array_equal` over a heap graph, and the array union that rests on them |
| `WeightedTime.dfy`, `BuildSummary.dfy`, `NinjaLog.dfy` | the build-time report |
| `QkvPacking.dfy`, `TpMerge.dfy`, `PipelineShards.dfy`, `LayerNumbering.dfy`, `Experts.dfy` | checkpoint conversion and merging |
| `Batching.dfy`, `BadWords.dfy` | the batching loop of `run_hf`; the bad-word logits processor |
| `Bits.dfy`, `ScalarTypeId.dfy`, `ScalarTypeRange.dfy` | `ScalarType` ids and ranges |
| `FileTree.dfy`, `Replacing.dfy`, `ReferenceHiding.dfy` | hiding the reference project from an agent |
| `Arith.dfy`, `Seqs.dfy`, `Tensors.dfy`, `Wrappers.dfy` | shared facts |

## The main results

* **Transfer** (`Transfer.TransferIsRowWise`, `Transfer.TransferData`): padding to the number of workers, chunking,
  letting every worker do row-wise work, concatenating and unpadding is the work done on every original row, in order.
  Tensor columns go through models of the torch algorithms, the others through models of the numpy ones.
  `Transfer.FuturesCompose` extends it to two worker groups of any sizes joined by futures.
* **Whole rows** (`RowClosure.EvalMakesWholeRows`): in every composition of slicing, selecting, reordering, repeating,
  splitting, chunking, concatenating and uniting on any number of `DataProto`s, every row is made of one whole row of
  each source that takes part in it. On one source that is one list of rows, picked out of every column
  (`RowClosure.EvalPicksRows`). Which rows of two sources a union puts side by side is the caller's affair:
  `Unions.UnionOfPicksIff` says exactly when they stay rows of one union.
* **Deep equality** (`DeepEqual.TrustworthyIffAcyclic`): acceptance means equality for a value exactly when the value
  has no cycle; for every cyclic value an unequal one is constructed that is accepted. What equality is, is said twice:
  level by level, and by a relation (`DeepEqual.SameStructureIffBisimilar`).
* **Weighted time** (`WeightedTime.Conservation`, `WeightedTime.BusyTimeBound`): the weighted durations add up to the
  busy time, which is at most the elapsed time, with equality exactly when the build is never idle. The busy time is
  the same on every cut of the time axis: it is the length of the union of the steps
  (`WeightedTime.BusyTimeOnAnyCut`).
* **Checkpoints** (`TpMerge.MergeUndoesPack`, `LayerNumbering.SliceThenMerge`): merging across tensor-parallel ranks
  undoes packing and sharding; merging pipeline stages undoes slicing exactly when no empty stage comes before one
  with layers.
* **Batching** (`Batching.RunHf`, `Batching.FeasibleIff`): the greedy batches are as few as any order-preserving
  division allows in which, in every batch of several, each prompt fits with each output.
* **Bad words** (`BadWords.Generate`, `BadWords.Replay`): one processor, called at every step of a run of any length,
  lets no bad word end, whatever token is taken each time; with finite or minus-infinite raw logits the runs it lets
  through are exactly those. When it raises is stated exactly, and the cached bias is built once.
* **ScalarType** (`ScalarTypeId.IdIsInjective`, `ScalarTypeRange.FloatingPointMaxIsLargest`).
* **Hiding** (`ReferenceHiding.Disk.RunStage`, `RunStaged`, `RunTwoStage`): what every stage leaves on disk, for any
  agent and any failure. `Replacing.ReplaceRemovesIff` says when redacting removes the key.

## Where the code falls short of its promise

Each of these is stated as an if-and-only-if on the code as it is, most with a concrete input.

* `_deep_equal` accepts unequal values when the left one is cyclic: any two arrays count as equal once the left one
  is being compared already (`DeepEqual.AcceptsUnequalCycle`). `union` then overwrites the left array
  (`ArrayUnion.UnionIsSafeIffAcyclic`).
* `union` checks sizes, not rows: it accepts rows of the two sides that never belonged together
  (`Unions.UnionMixesRows`).
* `_floating_point_max_int` is too large for IEEE types with one exponent bit, which have no normal numbers, and may be
  the code of an infinity in types that have infinities and another NaN scheme.
* `get_dynamic_pipeline_shards` raises `IndexError` for some sizes that could be divided, five layers on four stages
  for one (`PipelineShards.FiveLayersOnFourStages`).
* The merger gives a stage without layers a layer number, so later layers are shifted: the merged dictionary is right
  exactly when no empty stage comes before one with layers (`LayerNumbering.SliceThenMerge`; shares 0 and 1 in
  `LayerNumbering.ShiftedByEmptyStage`).
* Experts beyond the last full share of a rank are copied by no rank; the per-layer element check notices. With fewer
  experts than ranks the check itself fails on an unbound variable (`UnboundLocalError`), and so it does on every
  layer with a router in the branch without grouped experts, which never binds it.
* `DataProto.concat` without a tensor batch accepts parts that lack a column and returns columns of different lengths
  (`DataConcat.ConcatMisaligns`).
* `DataProto.union` cannot put back what `pop` took out when only numpy columns were popped.
* `unfold_column_chunks` without `split_keys` fails on any numpy column, although its documentation says that all keys
  are then repeated.
* Redacting leaves a key that overlaps the marker in some text, a part of the marker for one
  (`Replacing.ReplaceRemovesIff`).
* `restore_workspace_path` fails when the agent left a regular file where the reference belongs; the reference then
  stays hidden, and in the two-stage run the clean-up is skipped.

## Model

| member | source | states |
|---|---|---|
| `Rows.TorchSplitIsRanges` | task/verl/verl/protocol.py:880 | The pieces torch cuts off one by one are the consecutive ranges of rows of the given sizes. |
| `Rows.ArraySplitIsRanges` | task/verl/verl/protocol.py:881-890 | numpy, cutting at the cumulated sizes, yields the same ranges of rows as torch. |
| `Rows.SectionSizesSum` | task/verl/verl/protocol.py:892 | The section sizes numpy chooses for a number of sections add up to all rows. |
| `Rows.SectionSizesAre` | task/verl/verl/protocol.py:892 | No two sections differ by more than one row, the larger first. |
| `Rows.PieceSizesAre` | task/verl/verl/protocol.py:880 | All pieces but the last have the size asked for, the last at most that and at least one row. |
| `Rows.RepeatsAgree` | task/verl/verl/protocol.py:1080-1095 | Copying every row in turn (numpy) equals selecting rows by the index vector torch builds, for every list of counts. |
| `Rows.RepeatedRow` | task/verl/verl/protocol.py:984-1005 | Interleaved repetition puts row `r / n` at position `r`. |
| `Rows.RepeatIndexAt` | task/verl/verl/protocol.py:1080-1095 | Row `q` fills the positions after the copies of the rows before it, as many as its count says. |
| `Rows.TilesAgree` | task/verl/verl/protocol.py:988-1007 | The expand/reshape tiling of a tensor equals `np.tile` on every row. |
| `Rows.SlicePrefix` | task/verl/verl/protocol.py:703-716 | `:b` and `:b-n` select the first `b` of `n` rows under the clamping rules of Python slices. |
| `Rows.SliceIndexIs` | task/verl/verl/protocol.py:675-719 | With any bounds and step a slice selects the rows from its start on, in steps up or down, that come before its stop, in that order. |
| `DataProtos.LenIsRows` | task/verl/verl/protocol.py:334-341 | Whichever column `len` looks at, it finds the common number of rows. |
| `DataProtos.Build` | task/verl/verl/protocol.py:454-477 | The constructors accept exactly the values whose columns are all as long as the tensor batch, if there is one, and which error they raise otherwise. |
| `DataProtos.SelectIsPick` | task/verl/verl/protocol.py:635-673 | Integer indexing, negative indices included, picks the same rows out of every column, or is an `IndexError` exactly when an index is out of range; without columns nothing is checked. |
| `DataProtos.SelectRows` | task/verl/verl/protocol.py:635-673 | It succeeds exactly when every index lies from minus the length up to the length; then cell `i` of every column is the old cell at index `i`, counted from the end if negative. |
| `DataProtos.MaskIsPick` | task/verl/verl/protocol.py:635-673 | A boolean mask picks its true positions out of every column, and is refused exactly when its length is wrong; without columns nothing is checked. |
| `DataProtos.MaskRows` | task/verl/verl/protocol.py:635-673 | Row `r` is kept exactly if its position is true, after as many rows as are true before it. |
| `DataProtos.SliceIsPick` | task/verl/verl/protocol.py:675-719 | Slicing with any bounds and a step torch accepts picks the rows of the Python slice out of every column. |
| `DataProtos.SliceOkIff` | task/verl/verl/protocol.py:675-719 | Refused are a zero step, and a negative one if there is a tensor column. |
| `DataProtos.RepeatIsPick` | task/verl/verl/protocol.py:971-1013 | Both forms of `repeat` pick the same rows out of tensor and numpy columns. |
| `DataProtos.RepeatedRows` | task/verl/verl/protocol.py:971-1013 | Row `r` is row `r / times` when interleaved and row `r % n` when not, in every column. |
| `DataProtos.SampleRepeatIsPick` | task/verl/verl/protocol.py:1054-1100 | `sample_level_repeat` picks every row as often as its count says out of every column, and refuses all other counts, in particular a single count broadcast over a tensor batch of several rows. |
| `DataProtos.SampledRows` | task/verl/verl/protocol.py:1054-1100 | With a count for each row, the copies of row `q` come after those of the rows before it, in every column. |
| `DataProtos.SampledEvenly` | task/verl/verl/protocol.py:1054-1100 | A single count is the count of every row. |
| `DataConcat.ConcatPicks` | task/verl/verl/protocol.py:917-961 | Concatenating row selections of one value succeeds and selects the concatenated rows out of every column. |
| `DataConcat.ConcatOkIff` | task/verl/verl/protocol.py:917-961 | Parts are refused exactly when one has a numpy column the first lacks, or, beside a tensor batch, other tensor columns or a row without some numpy column. |
| `DataConcat.ConcatAlignedIff` | task/verl/verl/protocol.py:932-937 | Concatenation of aligned parts has all their rows exactly when every part with a row holds every numpy column of the first, and the first has something to hold rows in; with a tensor batch anything else is refused. |
| `DataConcat.ConcatMisaligns` | task/verl/verl/protocol.py:932-937 | Without a tensor batch a missing column is accepted and comes out short. |
| `DataConcat.PiecesAsAsked` | task/verl/verl/protocol.py:880-882 | The tensor path yields as many pieces as asked exactly when one piece fewer would not hold all rows. |
| `DataConcat.ChunkOkIff` | task/verl/verl/protocol.py:864-903 | `chunk` succeeds exactly when padding is enabled or the size divides, and torch yields as many pieces as asked. |
| `DataConcat.ChunkPiece` | task/verl/verl/protocol.py:878-903 | Piece `i` holds the `i`-th consecutive range of rows in tensor and numpy columns alike. |
| `DataConcat.ChunkRows` | task/verl/verl/protocol.py:878-903 | Pieces are of one size if the chunks divide the rows; else torch fills all but the last, and numpy gives the first ones a row more. |
| `DataConcat.ConcatUndoesChunk` | task/verl/verl/protocol.py:864-961 | `concat` undoes every successful `chunk`, even or uneven. |
| `DataConcat.SplitIsPick` | task/verl/verl/protocol.py:905-914 | `split` yields the consecutive pieces of the given size, none for no rows. |
| `DataConcat.SplitOddSizes` | task/verl/verl/protocol.py:905-914 | A size of zero is refused, and a negative one yields nothing. |
| `DataConcat.ConcatUndoesSplit` | task/verl/verl/protocol.py:905-961 | `concat` undoes `split` on every value with a row. |
| `Transfer.PaddedLengthIsLeast` | task/verl/verl/protocol.py:85-86 | The padded length is the least multiple of the divisor at or above the length. |
| `Transfer.PadToDivisor` | task/verl/verl/protocol.py:74-99 | Padding succeeds, and row `i` of the padded value is row `i` modulo the length in every column. |
| `Transfer.UnpadUndoesPad` | task/verl/verl/protocol.py:102-106 | Unpadding a padded value gives the value back. |
| `Transfer.WorkOnChunks` | task/verl/verl/protocol.py:864-961 | Row-wise work on the pieces of any chunk, concatenated, is the work on the whole. |
| `Transfer.TransferIsRowWise` | task/verl/verl/protocol.py:74-106 | Pad, chunk, work, concatenate and unpad give exactly the work on every original row, for every non-empty value and worker count. |
| `Transfer.TransferData` | task/verl/verl/protocol.py:74-106 | The padding loop, the chunks, the work, the concatenation and the unpadding run one after the other return the work on the value. |
| `Transfer.PerRowIsRowWise` | task/verl/verl/protocol.py:864-961 | Work that computes each cell from its own row is row-wise in the sense of the transfer result. |
| `Transfer.GetPiece` | task/verl/verl/protocol.py:1197-1228 | Each chunked future gets its own piece of what the future itself would get. |
| `Transfer.FuturesCompose` | task/verl/verl/protocol.py:1192-1228 | Two worker groups of any sizes joined by futures compute the composition of their row-wise work, and every future yields its piece. |
| `InPlace.UnionTensorDict` | task/verl/verl/protocol.py:109-122 | Succeeds exactly when sizes agree and common keys hold equal tensors, and then holds the columns of both; after a failure own tensors are all kept. |
| `InPlace.UnionNumpyDict` | task/verl/verl/protocol.py:188-199 | For any comparison, succeeds exactly when the arrays of common keys compare equal, and then holds both with the second laid over the first; a failure leaves a part of that. |
| `ArrayUnion.UnionArrays` | task/verl/verl/protocol.py:188-199 | The same over `_deep_equal` on the arrays of a heap. |
| `ArrayUnion.UnionIsSafeIffAcyclic` | task/verl/verl/protocol.py:188-199 | No union replaces an array by one of another structure exactly when none of the arrays has a cycle. |
| `InPlace.DataProto.UnionWith` | task/verl/verl/protocol.py:781-798 | The object holds the union, or the call fails exactly as the union of the two values does, and then holds a part of it. |
| `Unions.UnionKeepsIff` | task/verl/verl/protocol.py:781-798 | A union keeps every column of both sides exactly when arrays that compared equal are equal. |
| `Unions.UnionOfPicks` | task/verl/verl/protocol.py:781-798 | Union commutes with picking rows, so equal selections of both sides stay rows of one union. |
| `Unions.UnionOfPicksIff` | task/verl/verl/protocol.py:781-798 | The union of different selections picks rows of the union of the wholes exactly when each pair of rows put side by side is side by side in some row of the wholes. |
| `Unions.UnionOfDistinctPicks` | task/verl/verl/protocol.py:781-798 | When the rows of one side are all different, that is so exactly when both selections pick the same rows of the other side. |
| `Unions.UnionMixesRows` | task/verl/verl/protocol.py:781-798 | An accepted union that pairs a row of one side with another row of the other. |
| `InPlace.DataProto.ReorderBy` | task/verl/verl/protocol.py:963-969 | Cell `i` of every column of the object is the old cell at index `i`; an object without a tensor batch fails; when a numpy column cannot be indexed, the batch has been reordered already. |
| `InPlace.ReorderIsPick` | task/verl/verl/protocol.py:963-969 | Reordering picks the indexed rows out of every column, or is an `IndexError` exactly when an index is out of range; without columns only the size changes. |
| `InPlace.ReorderRows` | task/verl/verl/protocol.py:963-969 | It succeeds exactly when every index lies from minus the length up to the length; then cell `i` of every column is the old cell at index `i`, counted from the end if negative. |
| `InPlace.DataProto.Padding` | task/verl/verl/protocol.py:849-862 | Appends copies of the first row, or of the last for any other candidate; fails exactly on columns without a row to copy. |
| `InPlace.PopKeys` | task/verl/verl/protocol.py:739-747 | The loop fails exactly on an absent or repeated key; the columns named before the first such key are moved out and the others stay. |
| `InPlace.DataProto.Pop` | task/verl/verl/protocol.py:721-752 | Succeeds exactly when all keys are there once; the two objects then hold the named and the other columns, unchanged; what is left after a failure is stated too. |
| `InPlace.UnionUndoesPop` | task/verl/verl/protocol.py:721-798 | `union` puts back what `pop` took out exactly when some tensor column was popped. |
| `RowClosure.EvalMakesWholeRows` | task/verl/verl/protocol.py:635-1013 | In every composition of the operations that succeeds, over any number of sources, every row has all cells of one row of each source that takes part in it, and no other cell. |
| `RowClosure.EvalPicksRows` | task/verl/verl/protocol.py:635-1013 | On one source that is one list of its rows, picked out of every column. |
| `UnfoldColumns.SplitOkIff` | task/verl/verl/protocol.py:1026-1028 | A column can be split exactly when it has a second dimension that divides, or no row. |
| `UnfoldColumns.UnfoldRows` | task/verl/verl/protocol.py:1015-1052 | At output row `r` every split column holds piece `r % s`, and every other column all, of source row `r / s`. |
| `UnfoldColumns.UnfoldOkIff` | task/verl/verl/protocol.py:1022-1046 | Succeeds exactly when the split keys divide and keys are given if there is a numpy column. |
| `DeepEqual.DeepEqualObjects` | task/verl/verl/protocol.py:152-185 | Terminates on every graph, computes the specified relation and leaves `visited` as it was. |
| `DeepEqual.ArrayEqual` | task/verl/verl/protocol.py:125-149 | Numeric arrays are equal if shape, type and every number are, NaN being equal to NaN; arrays of objects if their shapes are and their elements are accepted in pairs. |
| `DeepEqual.LeafEq` | task/verl/verl/protocol.py:125-185 | A number, another object or a numeric array that is not being compared is accepted exactly against an equal one. |
| `DeepEqual.ArrayEq` | task/verl/verl/protocol.py:125-185 | An array of objects that is not being compared is accepted exactly against one of its shape with pairwise accepted elements. |
| `DeepEqual.VisitedEq` | task/verl/verl/protocol.py:167-175 | What is being compared already is accepted against everything of its type. |
| `DeepEqual.SameStructureIffBisimilar` | task/verl/verl/protocol.py:125-185 | Structural equality is being matched by a relation that matches all it relates: equal leaves, arrays of one shape with related elements. |
| `DeepEqual.NeverRejectsEqual` | task/verl/verl/protocol.py:125-185 | Structurally equal values are accepted, cyclic or not. |
| `DeepEqual.ExactOnAcyclic` | task/verl/verl/protocol.py:125-185 | On an acyclic left value acceptance is exactly structural equality. |
| `DeepEqual.AcceptsUnequalCycle` | task/verl/verl/protocol.py:167-175 | A self-containing array is accepted against an array that holds some other array. |
| `DeepEqual.TrustworthyIffAcyclic` | task/verl/verl/protocol.py:125-185 | Acceptance always means equality exactly for the values without cycles. |
| `WeightedTime.ScheduleFacts` | task/vllm-src/tools/report_build_time_ninja.py:205-224 | The sorted events are each start and stop exactly once, starts before stops at equal times. |
| `WeightedTime.ScheduleIsStable` | task/vllm-src/tools/report_build_time_ninja.py:205-224 | Starts of one time, and stops of one time, stay in the order of their steps. |
| `WeightedTime.Conservation` | task/vllm-src/tools/report_build_time_ninja.py:222-254 | The weighted durations add up to the time during which some step was running. |
| `WeightedTime.WeightedAtMostDuration` | task/vllm-src/tools/report_build_time_ninja.py:73-88 | A weighted duration lies between zero and the duration. |
| `WeightedTime.BusyTimeBound` | task/vllm-src/tools/report_build_time_ninja.py:256-257 | The sum is at most latest minus earliest, and equal exactly when some step runs at every moment between. |
| `WeightedTime.BusyTimeOnAnyCut` | task/vllm-src/tools/report_build_time_ninja.py:237-255 | On every cut of the time axis that has all starts and ends the covered cells add up to the same: the length of the union of the steps. |
| `BuildSummary.RunningIsCover` | task/vllm-src/tools/report_build_time_ninja.py:231-245 | Over a stretch of positive length the running map holds exactly the steps that cover it. |
| `BuildSummary.StopFindsStep` | task/vllm-src/tools/report_build_time_ninja.py:246-253 | A stop event finds its step running exactly when the step does not end before it starts. |
| `BuildSummary.ReachedEnd` | task/vllm-src/tools/report_build_time_ninja.py:237-255 | Every complete scan ends with nothing running and the right weight for every step. |
| `BuildSummary.Sweep` | task/vllm-src/tools/report_build_time_ninja.py:237-255 | The scan succeeds exactly when no step ends before it starts, and then stores every weighted duration and their sum. |
| `BuildSummary.Collect` | task/vllm-src/tools/report_build_time_ninja.py:205-219 | The first loop gathers the events, the total duration and, for times from zero on, the extremes. |
| `BuildSummary.SummarizeEntries` | task/vllm-src/tools/report_build_time_ninja.py:196-260 | When it fails; that every entry's weight is its share and passes the assertion in `WeightedDuration`; that the total is the busy time; and that it warns exactly above 500 of idle time. |
| `NinjaLog.ResetTest` | task/vllm-src/tools/report_build_time_ninja.py:122-141 | The two tests of the loop reset exactly when the record does not fit the build so far. |
| `NinjaLog.LastBuildIsConsistent` | task/vllm-src/tools/report_build_time_ninja.py:110-146 | Since the last reset end times never decrease and records sharing a hash share start and end. |
| `NinjaLog.LastResetIsABreak` | task/vllm-src/tools/report_build_time_ninja.py:122-141 | The last build reaches back to the start of the log or to a record that does not fit what came before. |
| `NinjaLog.NamesPartition` | task/vllm-src/tools/report_build_time_ninja.py:142-145 | The grouping loses and duplicates no record. |
| `NinjaLog.ReadTargets` | task/vllm-src/tools/report_build_time_ninja.py:103-146 | The records of the last build (or all), grouped by command hash in order of first appearance, names in log order; the error cases exactly. |
| `NinjaLog.RecordsConcat` | task/vllm-src/tools/report_build_time_ninja.py:111-116 | A line that is no record drops out by itself, and every record stays in its place. |
| `NinjaLog.TargetTimes` | task/vllm-src/tools/report_build_time_ninja.py:117-145 | A target has the times of the first record of its command, a thousandth of them in seconds, and that command's names. |
| `QkvPacking.PacksAgree` | task/verl/scripts/converter_hf_to_mcore.py:329-338 | The per-head packing of text layers equals the grouped one. |
| `QkvPacking.VisionIsPack` | task/verl/scripts/converter_hf_to_mcore.py:278-292 | The view/transpose/flatten of the vision weight is the per-group packing of its three thirds. |
| `QkvPacking.VisionRow` | task/verl/scripts/converter_hf_to_mcore.py:278-292 | Which source row every row of the vision packing is. |
| `QkvPacking.VisionIsPermutation` | task/verl/scripts/converter_hf_to_mcore.py:278-292 | As many rows come out as went in, and every source row comes to exactly one place: the two position maps are inverse to each other. |
| `QkvPacking.PackIsNatural` | task/verl/scripts/converter_hf_to_mcore.py:155-168 | Packing commutes with any function of a row, so biases are permuted as weight rows are. |
| `TpMerge.MergeQkv` | task/verl/scripts/legacy_model_merger.py:529-557 | The nested loops compute the specified merge, with the failing sizes as errors. |
| `TpMerge.MergeUndoesPack` | task/verl/scripts/legacy_model_merger.py:529-557 | Packing, sharding evenly and merging gives back q, k and v for all head counts, group counts, head sizes and rank counts that divide. |
| `TpMerge.PackIsInjective` | task/verl/scripts/converter_hf_to_mcore.py:155-161 | Equal fused weights come from equal q, k and v. |
| `TpMerge.MergeGateUp` | task/verl/scripts/legacy_model_merger.py:518-528 | The gate and up halves of all shards, concatenated; fails exactly on a shard that does not give two pieces. |
| `Tensors.TorchChunkIs` | task/verl/scripts/legacy_model_merger.py:518-557 | A chunk keeps every row in order, in pieces of the rounded-up size and a last one of at most that. |
| `TpMerge.GateUpRecovered` | task/verl/scripts/legacy_model_merger.py:518-528 | Shards built from equal blocks of gate and up are taken apart again. |
| `PipelineShards.GetDynamicPipelineShards` | task/verl/verl/model_merger/megatron_model_merger.py:57-98 | Fails exactly when the condition says; else one positive share per stage, adding up, the middle ones least possible, the last one getting the odd layer of the two ends. |
| `PipelineShards.LeastAccepted` | task/verl/verl/model_merger/megatron_model_merger.py:82-94 | If the loop accepts any middle size it accepts the ceiling, and nothing smaller. |
| `PipelineShards.FiveLayersOnFourStages` | task/verl/verl/model_merger/megatron_model_merger.py:82-97 | An input that could be divided and fails. |
| `LayerNumbering.MergeStage` | task/verl/scripts/legacy_model_merger.py:617-653 | One stage's keys go into the dictionary, those with a layer renumbered and the others under their own name, and the highest local layer is tracked. |
| `LayerNumbering.MergedKey` | task/verl/scripts/legacy_model_merger.py:608-658 | A key is in the merged dictionary exactly when some entry belongs under it by name and number, and has the value of the last such entry. |
| `LayerNumbering.MergeStateDicts` | task/verl/scripts/legacy_model_merger.py:608-658 | The grid is merged virtual rank by virtual rank, pipeline rank by pipeline rank; a name without a layer is there exactly when some entry of the grid has it, with the value of the last one visited. |
| `LayerNumbering.VisitedAt` | task/verl/scripts/legacy_model_merger.py:612-617 | Virtual rank `v` of pipeline rank `p` is visited at position `v * pp + p`. |
| `LayerNumbering.GridNumbers` | task/verl/scripts/legacy_model_merger.py:608-658 | On every grid a number of a stage is in the dictionary exactly for the entries of that stage, no other stage writes under it, and without empty stages the numbers are contiguous in visiting order. |
| `LayerNumbering.StageAdvance` | task/verl/scripts/legacy_model_merger.py:629-656 | Whatever the key order, a stage of `n` layers advances the numbering by `n`, an empty one by one. |
| `LayerNumbering.CumAgainstSum` | task/verl/scripts/legacy_model_merger.py:612-656 | The running number is never below the layers so far, and equal exactly without an empty stage. |
| `LayerNumbering.NumberedRightIff` | task/verl/scripts/legacy_model_merger.py:612-656 | All global numbers are right exactly when no empty stage comes before a stage with layers. |
| `LayerNumbering.SliceIs` | task/verl/scripts/converter_hf_to_mcore.py:576-578 | The cumulative sums give each stage the layers after those of the stages before it. |
| `LayerNumbering.SliceThenMerge` | task/verl/scripts/legacy_model_merger.py:608-658 | Slicing and merging gives back every layer under its own number and nothing else exactly when no empty stage comes before a stage with layers. |
| `LayerNumbering.ShiftedByEmptyStage` | task/verl/scripts/legacy_model_merger.py:608-658 | With shares 0 and 1 the only layer comes out under number 1. |
| `LayerNumbering.DynamicShardsMerge` | task/verl/scripts/converter_hf_to_mcore.py:518-578 | The computed shards leave no stage empty, so what is converted with them is merged back. |
| `Experts.CopyExperts` | task/verl/scripts/converter_hf_to_mcore.py:419-434 | A rank copies its range of experts under numbers from zero, counts their elements, and keeps the last down size, if any. |
| `Experts.RanksHoldFront` | task/verl/scripts/converter_hf_to_mcore.py:183-217 | The ranks in order hold a front part of the experts, each once. |
| `Experts.NoExpertLostIff` | task/verl/scripts/converter_hf_to_mcore.py:183-185 | No expert is lost exactly when the ranks divide the experts. |
| `Experts.NumelCheckIff` | task/verl/scripts/converter_hf_to_mcore.py:448-451 | For experts of equal shape the check passes exactly when no expert is lost; without a local expert it is unbound. |
| `Experts.CheckedShare` | task/verl/scripts/converter_hf_to_mcore.py:448-451 | For any shapes, the share subtracted is rounded down once, after everything but the number of other ranks is multiplied in. |
| `Batching.FeasibleIff` | task/vllm-src/benchmarks/benchmark_throughput.py:219-231 | A batch of several may be sent exactly when it is within the batch size and every prompt fits with every output into 2048 tokens. |
| `Batching.MaximaAre` | task/vllm-src/benchmarks/benchmark_throughput.py:219-220 | The two maxima are attained in the batch and never exceeded. |
| `Batching.FeasibleInterval` | task/vllm-src/benchmarks/benchmark_throughput.py:223-231 | Feasibility is inherited by every non-empty interval of a batch. |
| `Batching.StaysAhead` | task/vllm-src/benchmarks/benchmark_throughput.py:215-252 | Batches that could not have been longer are no more than any other division has. |
| `Batching.RunHf` | task/vllm-src/benchmarks/benchmark_throughput.py:212-252 | Every request in one batch, in order; in a batch of several every prompt fits with every output; fewest batches; the token limit given with a batch is its longest output. |
| `BadWords.NoBadWordsLogitsProcessor.Call` | task/vllm-src/vllm/logits_process.py:58-88 | Exactly the tokens that complete a bad word get minus infinity added, all others keep their logit; the error cases exactly, logits of another vocabulary size than the cached one included; the bias is built once. |
| `BadWords.AddBiases` | task/vllm-src/vllm/logits_process.py:66-88 | The two biases together ban a token exactly when it completes a bad word. |
| `BadWords.NoBadWordsLogitsProcessor.InitWordBias` | task/vllm-src/vllm/logits_process.py:90-105 | The cached bias bans exactly the one-token words, or the bounds check fails. |
| `BadWords.NoBadWordsLogitsProcessor.LastTokenBias` | task/vllm-src/vllm/logits_process.py:66-84 | The step bias bans exactly the last tokens of longer words whose prefix has just been generated. |
| `BadWords.NoBadWordsLogitsProcessor.CheckTokenIdsBounds` | task/vllm-src/vllm/logits_process.py:107-121 | Finds no invalid token exactly when all words are in the vocabulary. |
| `BadWords.Generate` | task/vllm-src/vllm/logits_process.py:58-105 | A run on one processor that takes any token left to it: no interval of its tokens is a bad word, every logit taken was finite, it stops early only when no token is left, it raises exactly on words that are empty or out of vocabulary, and the bias is built once. |
| `BadWords.Replay` | task/vllm-src/vllm/logits_process.py:58-105 | A given run is let through by one processor exactly when no bad word ends in it and every logit taken was finite; for other logits, exactly when each token could be taken. |
| `BadWords.RunIsCleanIffTakable` | task/vllm-src/vllm/logits_process.py:58-105 | With finite or minus-infinite logits, tokens can be taken one after the other exactly in the runs where no bad word ends. |
| `BadWords.CleanIffNoOccurrence` | task/vllm-src/vllm/logits_process.py:58-105 | What the runs of `Generate` and `Replay` promise: no bad word ends exactly when no interval of the tokens is a bad word. |
| `ScalarTypeId.Id` | task/vllm-src/vllm/scalar_type.py:135-161 | The six steps pack the six fields, below 2 to the 58, so the final assertion holds. |
| `ScalarTypeId.ReadPacked` | task/vllm-src/csrc/core/scalar_type.hpp:142-157 | Shift and mask recover every field of every packing. |
| `ScalarTypeId.FromIdOfId` | task/vllm-src/csrc/core/scalar_type.hpp:142-157 | Decoding an id gives the type with its fields cut to their C++ widths, the bias in two's complement. |
| `ScalarTypeId.IdIsInjective` | task/vllm-src/vllm/scalar_type.py:135-161 | In-range types survive the round trip, and ids agree exactly when the cut fields do. |
| `ScalarTypeRange.CodeAsDouble` | task/vllm-src/vllm/scalar_type.py:69-102 | A normal code of a format is the same number as the double with its exponent rebiased and its mantissa widened. |
| `ScalarTypeRange.Subnormal` | task/vllm-src/vllm/scalar_type.py:69-102 | Subnormal numbers have the spacing of the smallest normal ones. |
| `ScalarTypeRange.FloatingPointMaxOkIff` | task/vllm-src/vllm/scalar_type.py:69-85 | The asserts accept up to 52 mantissa bits and 11 exponent bits, 10 without an exponent set aside. |
| `ScalarTypeRange.DoubleOfMax` | task/vllm-src/vllm/scalar_type.py:69-106 | The pattern is a normal binary64 number (section 3.4 of IEEE 754-2019) with the intended value. |
| `ScalarTypeRange.FloatingPointMaxIsLargest` | task/vllm-src/vllm/scalar_type.py:69-106 | It is the largest finite value of the type, attained, exactly unless the type is IEEE with one exponent bit or the code is that of an infinity. |
| `ScalarTypeRange.MinIsOppositeOfMax` | task/vllm-src/vllm/scalar_type.py:116-126 | The floating minimum is the opposite of the maximum. |
| `ScalarTypeRange.IntegerRangeIsExact` | task/vllm-src/vllm/scalar_type.py:108-132 | The integer range holds exactly the numbers some stored pattern stands for. |
| `ScalarTypeRange.IntegerOkIff` | task/vllm-src/vllm/scalar_type.py:108-132 | There is a maximum up to 63 bits below the sign, and a minimum then or without a sign. |
| `ReferenceHiding.Disk.MoveWorkspacePath` | scripts/run_gemini_test_generator.py:388-396 | The disk after hiding, the same everywhere outside the reference and its hiding place, and that only a stale regular file at the hidden path makes it fail. |
| `ReferenceHiding.Disk.RestoreWorkspacePath` | scripts/run_gemini_test_generator.py:399-405 | The disk after restoring, the same everywhere outside the reference and its hiding place, and that only a regular file at the reference path makes it fail. |
| `ReferenceHiding.MovedElsewhere` | scripts/run_gemini_test_generator.py:388-405 | Both moves leave every other path alone. |
| `ReferenceHiding.MovedOutKeeps` | scripts/run_gemini_test_generator.py:388-396 | The hidden tree is the reference tree, and nothing is left at the reference path. |
| `ReferenceHiding.MovedBackKeeps` | scripts/run_gemini_test_generator.py:399-405 | The restored tree is the hidden tree, and nothing is left at the hidden path. |
| `ReferenceHiding.RedactChangesIff` | scripts/run_gemini_test_generator.py:948-964 | A file changes exactly when it is small enough and contains the key. |
| `ReferenceHiding.CleanedUpAt` | scripts/run_gemini_test_generator.py:948-971 | What a clean-up does to each path: the private home goes, small files of the run are redacted, all else stays. |
| `ReferenceHiding.KeyIsGone` | scripts/run_gemini_test_generator.py:948-971 | After it no small file of the run holds a key that does not clash with the marker. |
| `ReferenceHiding.OrdinaryKey` | scripts/run_gemini_test_generator.py:948-964 | A key without brackets that is no part of the marker does not clash with it. |
| `Replacing.ReplaceIsJoin` | scripts/run_gemini_test_generator.py:948-964 | Replacing splits the text at the first occurrence each time and joins the pieces with the marker. |
| `Replacing.ReplaceRemovesIff` | scripts/run_gemini_test_generator.py:948-964 | It removes the key from every text exactly when key and marker do not overlap in one of the listed ways. |
| `ReferenceHiding.BlockingAgent` | scripts/run_gemini_test_generator.py:399-405 | A confined agent can leave a file that makes the restore fail. |
| `ReferenceHiding.HiddenStage` | scripts/run_gemini_test_generator.py:414-425 | Hide, any confined change, restore: the reference is back, or still hidden behind a file, up to redaction. |
| `ReferenceHiding.Disk.RunStage` | scripts/run_gemini_test_generator.py:409-425 | The whole disk and the outcome after one stage with any confined agent; the reference is back, or still hidden behind a file, up to redaction; everything else is as the run left it. |
| `ReferenceHiding.HidingPlaces` | scripts/run_gemini_test_generator.py:409-413 | Each stage hides the reference at a place of its own. |
| `ReferenceHiding.Disk.RunStaged` | scripts/run_gemini_test_generator.py:408-435 | Every hidden stage of a run keeps the reference; after a complete run it is what the second stage left, if free of the key. |
| `ReferenceHiding.Disk.RunTwoStage` | scripts/run_gemini_test_generator.py:460-502 | The whole disk and the outcome: the second stage sees the original reference, moved back once; after it only the clean-up of what it left; a failed first stage ends with the reference restored. |

## Left out

- `meta_info` of `DataProto` and its merging, `select`, `rename`, `to`, pickling, the data loader, `fold_batch_dim`,
  `all_gather_data_proto`: easy, or resting on libraries that are not shown.
- Aliasing between a `DataProto` and the tensors and arrays it was built from: columns are values here.
- TensorDict is taken to chunk in pieces of the rounded-up size, at least one piece, even of no rows; torch and numpy
  are taken to check indices, masks and counts as their documentation says.
- A negative repeat count, padding size or number of chunks, and a number of chunks or pieces of zero.
- `InPlace.DataProto.UnionWith`: after a failure, which of the other object's columns have been laid over depends on
  the order of its keys, which is left open. A tensor with NaN, which torch finds unequal to itself, is not
  distinguished.
- `RowClosure.EvalMakesWholeRows`: arrays that compare equal are taken to be equal, which `ArrayUnion` shows to hold
  for arrays without cycles; the sources all have a tensor batch, or none has one and all have the same numpy columns,
  since `DataConcat.ConcatMisaligns` shows what happens otherwise.
- `UnfoldColumns.UnfoldOkIff`: an element stands for everything behind the second dimension, so columns with a later
  dimension of size zero, which reshape to anything, are not distinguished.
- `Transfer.TransferIsRowWise`: for data without rows; the tensor path then refuses more than one chunk
  (`DataConcat.ChunkOkIff`).
- Deep equality of other Python objects: they compare by an opaque equality that may fail.
- The parsing of log lines, the printed report of `SummarizeEntries` after its warning, and floating-point rounding.
- `BuildSummary.SummarizeEntries`: targets are distinct objects; earliest and latest are stated for times from zero on.
- `BadWords.Generate`, like `BadWords.Replay`: the logits of one run are over one vocabulary. A token that is not minus
  infinity stands for what a sampler may take.
- Names of parameters (`params_mapping`), keys skipped as extra state or tied embeddings, data types and casts of
  checkpoint tensors, and the cross-rank element total, which the code only warns about.
- `Experts.CopyExperts`: the destination is taken to have a weight for every local number.
- `ScalarType.has_nans`, `is_ieee_754` and `__str__`, which compare an enum member with its integer value.
- Symbolic links, permissions and input/output errors of the file system; a rename is atomic. The workspace directory
  itself stays. Prompts, logs and audit files, written elsewhere than at the reference or hidden paths, are part of
  what an agent may change. A file's size is counted in characters.
- `ReferenceHiding.Disk.RunTwoStage`: stopping the container has no effect on the disk.
- Docker, subprocess, git, HTTP and command-line code, kernels and their bindings, and the user interface.
