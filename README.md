# Olympic filter: a verified model

This project models the core of the WhiteboxTools `OlympicFilter` tool
(`whitebox_tools/src/tools/image_analysis/olympic_filter.rs`). The tool
smooths a raster with a windowed, outlier-trimmed mean. Each output cell is
the mean of the valid samples in the `filter_size_x × filter_size_y`
rectangle around it, after one maximum and one minimum are dropped. A cell
whose own sample is no-data stays no-data.

The modelled parts are:

- **Width normalisation.** Widths below 3 become 3, even widths are bumped
  by one, and the half-widths `midpoint_x` and `midpoint_y` are derived.
- **Per-row sliding-window engine.** For one output row, the worker keeps
  four parallel deques: strip minimums, maximums, totals and counts. It fills
  them at column 0. At every later column it pops the leftmost strip and
  pushes a freshly scanned one. It then reduces the deques and writes
  `(sum - max - min) / (n - 2)`, or `sum / n` when `n <= 2`.
- **Row-block scheduler.** Rows are cut into blocks
  `[id*b, min(id*b + b, rows))` with `b = rows / num_cpus`.
- **Result collector.** It receives one `(row, data)` message per row, in any
  order, and stores each at its own index.

How the model is built:

- Samples are `real`. The f64 seeds `+∞` and `-∞` of the running minimum and
  maximum are the `Ext` values `PosInf` and `NegInf`, so min/max updates follow
  the code's comparisons exactly.
- The raster accessor `Grid.Get` is total: off-grid coordinates read as
  no-data. The code relies on this when it reads `input[(row2, col2)]` and
  `input.get_value(row2, col + midpoint_x)` outside the grid. The `raster`
  module itself is not part of this model.
- The deques are local `seq` variables. `pop_front` is `s[1..]` and
  `push_back` is `s + [x]`. The output row is an `array<real>` filled with
  no-data.
- Every imperative step is proved against brute-force specification
  functions. `StripValues`, `WindowValues` and `Neighbourhood` list the valid
  samples of a strip or rectangle. `Summary` aggregates them. `OlympicMean`
  and `CellOutput` give the value each cell must get.
- Two reference aggregates sit between the loops and those lists.
  `StripAggregate` folds one column in cell by cell. `WindowAggregate` merges
  strip aggregates from the left. The loops are proved against these, and
  lemmas prove these equal to `Summary` of the listed samples.
- Threads and the channel are run sequentially: each block's worker runs to
  completion in turn. The order in which rows reach the collector is a
  parameter, `schedule`. `Filter`'s result does not depend on it.

Files and modules:

| file | module | contents |
|---|---|---|
| samples.dfy | `Samples` | `Ext`, the strip aggregate `Strip`, `Summary`, `Sum`, `Smallest`, `Largest`, `OlympicMean` and their lemmas |
| grid.dfy | `Grids` | the raster, the accessor, the brute-force neighbourhood and the per-cell output |
| tracker.dfy | `WindowTracker` | strip scan, column-0 fill, one-column advance, reduction |
| worker.dfy | `RowWorker` | the per-row loop and the trimmed-mean step |
| scheduler.dfy | `Scheduler` | the block loop, its tiling property, the non-termination finding and its fix |
| collector.dfy | `Collector` | storing rows by index, and the proofs that every row arrives and that order does not matter |
| filter.dfy | `OlympicFilter` | width normalisation, one worker, all blocks, and the whole filter |
| worked_examples.dfy | `WorkedExamples` | two small rasters worked through by hand |

## Model

| member | source | states |
|---|---|---|
| `OlympicFilter.NormalisedWidth` | whitebox_tools/src/tools/image_analysis/olympic_filter.rs:131-140 | A normalised width is odd and at least 3. It equals `max(w,3)` or `max(w,3)+1`, so it is the smallest odd width not below the clamped request. |
| `OlympicFilter.NormaliseWidths` | whitebox_tools/src/tools/image_analysis/olympic_filter.rs:131-144 | The conditional clamp and the even bump give the normalised width on each axis, and `2*midpoint+1` equals that width. |
| `WindowTracker.StripAggregateMeaning` | whitebox_tools/src/tools/image_analysis/olympic_filter.rs:203-215 | Folding a column in cell by cell, skipping no-data and off-grid cells, gives the count, sum, minimum and maximum of exactly that strip's valid samples. |
| `WindowTracker.WindowAggregateMeaning` | whitebox_tools/src/tools/image_analysis/olympic_filter.rs:246-259 | Merging the strip aggregates of consecutive columns gives the aggregate of all the valid samples of the rectangle. |
| `WindowTracker.ScanStrip` | whitebox_tools/src/tools/image_analysis/olympic_filter.rs:203-215 | The scan of one column over `midpoint_y` rows either side returns the min, max, total and count of that strip's valid samples. No-data and off-grid samples are left out. An empty strip keeps the `+∞`/`-∞` seeds and count 0. |
| `WindowTracker.FillWindow` | whitebox_tools/src/tools/image_analysis/olympic_filter.rs:221-242 | After the column-0 fill, all four deques have `filter_size_x` entries. Slot `i` holds the strip aggregate (min, max, total, count) of column `-midpoint_x + i`. |
| `WindowTracker.AdvanceWindow` | whitebox_tools/src/tools/image_analysis/olympic_filter.rs:198-219 | If slot `i` holds the strip aggregate of column `col - 1 - midpoint_x + i`, then after popping the front and pushing the scan of column `col + midpoint_x`, slot `i` holds that of column `col - midpoint_x + i`. The four deques keep their common length. |
| `WindowTracker.Reduce` | whitebox_tools/src/tools/image_analysis/olympic_filter.rs:246-259 | The combined min, max, sum and `n` from the deques equal the merged strip aggregate and the brute-force aggregate of the whole `filter_size_x × filter_size_y` rectangle. |
| `RowWorker.TrimmedMean` | whitebox_tools/src/tools/image_analysis/olympic_filter.rs:244-266 | At a valid centre, `n >= 1`. The value written is the olympic mean of the neighbourhood: trimmed when `n > 2`, the plain mean otherwise. No division by zero occurs. |
| `RowWorker.MeanFromAggregate` | whitebox_tools/src/tools/image_analysis/olympic_filter.rs:244-266 | At a valid centre, the window aggregate has finite bounds and counts at least 1. The olympic mean of the neighbourhood is `(sum - max - min) / (n - 2)` of that aggregate when `n > 2`, and `sum / n` otherwise. |
| `RowWorker.SlideWindow` | whitebox_tools/src/tools/image_analysis/olympic_filter.rs:198-242 | At column 0 the deques are filled from scratch. At a later column they are moved one step from the previous window. Either way they then hold the strip aggregates of the window for `col`. |
| `RowWorker.FilterRow` | whitebox_tools/src/tools/image_analysis/olympic_filter.rs:189-268 | The row has `columns` entries. A no-data centre stays no-data. Every other cell holds the brute-force olympic value of its neighbourhood. The loop invariant keeps the deques equal to the strip aggregates of the current window. |
| `Samples.SummaryMeaning` | whitebox_tools/src/tools/image_analysis/olympic_filter.rs:203-215 | A running aggregate is exactly the count, the sum, the smallest and the largest of the samples folded in. With no samples it is the infinite seeds. |
| `Samples.SummaryOfConcat` | whitebox_tools/src/tools/image_analysis/olympic_filter.rs:250-259 | Aggregating a concatenation equals merging the parts' aggregates. This is why combining strip aggregates gives the rectangle's aggregate. |
| `Samples.OlympicMeanOfSummary` | whitebox_tools/src/tools/image_analysis/olympic_filter.rs:260-266 | For non-empty samples, the aggregate has finite bounds and counts every sample. The olympic mean is computed from the aggregate alone. |
| `Samples.SmallestIsLeast` | whitebox_tools/src/tools/image_analysis/olympic_filter.rs:207-215 | The running minimum is a lower bound of the samples and is one of them. |
| `Samples.LargestIsGreatest` | whitebox_tools/src/tools/image_analysis/olympic_filter.rs:207-215 | The running maximum is an upper bound of the samples and is one of them. |
| `Samples.OlympicMeanInRange` | whitebox_tools/src/tools/image_analysis/olympic_filter.rs:260-266 | The trimmed or untrimmed mean lies between the smallest and the largest sample of the neighbourhood. |
| `Grids.CentreCounted` | whitebox_tools/src/tools/image_analysis/olympic_filter.rs:244-266 | A valid centre lies in its own window, so the neighbourhood is never empty when a value is written. |
| `Grids.CellOutputInRange` | whitebox_tools/src/tools/image_analysis/olympic_filter.rs:244-266 | An output cell is no-data when its centre is no-data. Otherwise it lies within the range of the valid samples around it. |
| `Scheduler.BlockAt` | whitebox_tools/src/tools/image_analysis/olympic_filter.rs:173-177 | Block `id` starts at `id*b`, holds at most `b` rows, holds exactly `b` rows when they fit, and otherwise ends exactly at `rows`. It never passes `rows`. |
| `Scheduler.PartitionRows` | whitebox_tools/src/tools/image_analysis/olympic_filter.rs:164-178 | When `b > 0` (or there are no rows) the loop ends. Its blocks are `[id*b, min(id*b+b, rows))`, non-empty and back to back from 0 to `rows`. All but the last hold exactly `b` rows. |
| `Scheduler.TilesExtend` | whitebox_tools/src/tools/image_analysis/olympic_filter.rs:170-178 | Appending a non-empty block that starts where the tiling ends extends the tiling to the block's end. |
| `Scheduler.FullBlocks` | whitebox_tools/src/tools/image_analysis/olympic_filter.rs:166-178 | In a tiling built from `BlockAt`, every block but the last holds exactly `b` rows. |
| `Scheduler.RowInOneBlock` | whitebox_tools/src/tools/image_analysis/olympic_filter.rs:170-178 | Every row below `rows` lies in exactly one block, with no gaps and no overlaps. |
| `Scheduler.StallsWithMoreProcessorsThanRows` | whitebox_tools/src/tools/image_analysis/olympic_filter.rs:166-178 | As written, with `0 < rows < num_cpus` the block size is 0. Every iteration yields `[0, 0)` and `ending_row` never reaches `rows`. |
| `Scheduler.ThreeRowsEightProcessors` | whitebox_tools/src/tools/image_analysis/olympic_filter.rs:166-178 | For 3 rows on 8 processors, every iteration leaves `ending_row` at 0, below 3. |
| `Scheduler.CappedBlockSize` | whitebox_tools/src/tools/image_analysis/olympic_filter.rs:166-167 | With the worker count capped at `rows`, the block size is positive whenever there is a row. It equals `rows / num_cpus` whenever `rows >= num_cpus`. |
| `Collector.Collect` | whitebox_tools/src/tools/image_analysis/olympic_filter.rs:274-276 | Given one message per row index, the output has `rows` rows and each message's data sits at its own row index. |
| `Collector.EveryRowArrives` | whitebox_tools/src/tools/image_analysis/olympic_filter.rs:274-276 | `rows` messages with distinct row indices below `rows` cover every row index, so no output row is left unset. |
| `Collector.ArrivalOrderIrrelevant` | whitebox_tools/src/tools/image_analysis/olympic_filter.rs:274-276 | Any two arrival orders of the same messages assemble the same grid. |
| `OlympicFilter.RunWorker` | whitebox_tools/src/tools/image_analysis/olympic_filter.rs:180-271 | A worker sends one message per row of its block, in order. Each message is tagged with its row index and holds that row's filtered data. |
| `OlympicFilter.RunBlocks` | whitebox_tools/src/tools/image_analysis/olympic_filter.rs:170-180 | Running the workers of a tiling of the rows sends exactly `rows` messages. Message `i` is row `i`, so each row is sent exactly once. |
| `OlympicFilter.Filter` | whitebox_tools/src/tools/image_analysis/olympic_filter.rs:131-276 | For any processor count and any arrival order, the output has the input's dimensions. Every cell equals the brute-force olympic value for the normalised window. The rows are cut with the corrected block size `CappedBlockSize` (see Findings), so the run also ends when there are fewer rows than processors, where the code as written loops forever. |
| `WorkedExamples.CentreOfFiveByFive` | whitebox_tools/src/tools/image_analysis/olympic_filter.rs:244-266 | On the 5×5 raster of 1..25 with a 3×3 window, the centre's output is `(117 - 19 - 7) / 7 = 13`. |
| `WorkedExamples.HoleIsSkipped` | whitebox_tools/src/tools/image_analysis/olympic_filter.rs:244-266 | With a no-data centre, that cell stays no-data. Its left neighbour counts only its 8 valid samples and gets `(95 - 18 - 6) / 6`. |

## Findings

| source | as written | input that shows it | evidently intended | confidence | as-written member | corrected member |
|---|---|---|---|---|---|---|
| whitebox_tools/src/tools/image_analysis/olympic_filter.rs:166-178 | `row_block_size = rows / num_procs`, then `while ending_row < rows` with `ending_row = id*row_block_size + row_block_size` | `rows = 3` on an 8-processor machine: the block size is 0, every iteration yields `[0, 0)` and spawns a thread, and the loop never ends | at most `rows` workers, so the block size is at least 1 and the loop ends | high (not executed) | `Scheduler.StallsWithMoreProcessorsThanRows` | `Scheduler.CappedBlockSize` |

`OlympicFilter.Filter` uses `CappedBlockSize`. `PartitionRows` requires a
positive block size whenever there are rows.

## Left out

- Command-line parsing (lines 72-121) is left out, along with the constructor, help-text accessors (lines 30-69) and the welcome banner (lines 123-127). They are string glue around `env` and `parse().unwrap()`, and the model takes the parsed widths as parameters.
- Working-directory path joining (lines 148-153) is left out.
- Raster I/O is left out: reading the input, creating the output from a file, metadata entries, timing and `output.write()` (lines 157-161, 286-298). These are foreign calls into the `raster` module, which is not part of this model. The initial contents of the output raster are not modelled; the model proves every row is overwritten.
- Progress printing (lines 277-283 and 300) is left out.
- Threads, `Arc`, `mpsc::channel` and `num_cpus::get()` are modelled sequentially. The processor count is a parameter. Channel arrival order is the `schedule` parameter. Worker panics, and the collector blocking forever after one, are not modelled.
- IEEE-754 behaviour is not modelled. Arithmetic is exact over `real`, so rounding and the order of floating-point summation are ignored. NaN samples and NaN no-data values are not modelled. The float-based parity test and `floor(w/2)` are modelled as integer `% 2` and `/ 2`.
- Integer widths (`usize`, `isize`) are unbounded here, so overflow is not modelled.
- Three behaviours of the code that the model follows:
  - The remainder rows go into one extra, shorter block. They are not added to the last block.
  - The block size is `rows / num_procs` with no cap on the worker count. `Scheduler.PartitionRows` takes any block size and models the loop as written; `Scheduler.StallsWithMoreProcessorsThanRows` shows it never ends when `0 < rows < num_procs`. `OlympicFilter.Filter` does not run that case: it uses the corrected `Scheduler.CappedBlockSize` from Findings.
  - There is no explicit no-data output for `n == 0`. The code would compute `sum / 0`. That branch is unreachable, because a valid centre always counts itself (`Grids.CentreCounted`).
