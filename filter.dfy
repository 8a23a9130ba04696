/** The olympic filter tool: normalises the filter widths, cuts the rows
  * into blocks, lets one worker per block filter its rows, and collects the
  * finished rows into the output raster. Threads and the channel are
  * modelled sequentially; the order in which rows reach the collector is a
  * parameter. */
module OlympicFilter {
  import opened Samples
  import opened Grids
  import opened RowWorker
  import opened Scheduler
  import opened Collector

  /** A requested filter width made usable: at least 3 and odd, so that the
    * window has a middle cell. It is the smallest odd width not below the
    * request. */
  function NormalisedWidth(w: nat): (size: nat)
    ensures size % 2 == 1 && size >= 3
    ensures (if w < 3 then 3 else w) <= size <= (if w < 3 then 3 else w) + 1
  {
    var atLeast3 := if w < 3 then 3 else w;
    if atLeast3 % 2 == 0 then atLeast3 + 1 else atLeast3
  }

  /** Clamps both widths to 3, bumps even widths by one, and derives the
    * half-widths: each window is 2 * mid + 1 cells across. */
  method NormaliseWidths(filterX: nat, filterY: nat) returns (sizeX: nat, sizeY: nat, midX: nat, midY: nat)
    ensures sizeX == NormalisedWidth(filterX) && sizeY == NormalisedWidth(filterY)
    ensures 2 * midX + 1 == sizeX && 2 * midY + 1 == sizeY
  {
    sizeX, sizeY := filterX, filterY;
    if sizeX < 3 { sizeX := 3; }
    if sizeY < 3 { sizeY := 3; }
    if sizeX % 2 == 0 { sizeX := sizeX + 1; }
    if sizeY % 2 == 0 { sizeY := sizeY + 1; }
    midX := sizeX / 2;
    midY := sizeY / 2;
  }

  /** One worker thread: filters the rows of its block in order and sends
    * each finished row, tagged with its index, as soon as it is done. */
  method RunWorker(g: Grid, midX: nat, midY: nat, block: Block) returns (sent: seq<Message>)
    requires g.WellFormed()
    ensures |sent| == if block.start <= block.end then block.end - block.start else 0
    ensures forall i :: 0 <= i < |sent| ==>
      sent[i] == Message(block.start + i, FilteredRow(g, midX, midY, block.start + i))
  {
    sent := [];
    var row := block.start;
    while row < block.end
      invariant block.start <= row && (row <= block.end || row == block.start)
      invariant |sent| == row - block.start
      invariant forall i :: 0 <= i < |sent| ==>
        sent[i] == Message(block.start + i, FilteredRow(g, midX, midY, block.start + i))
    {
      var data := FilterRow(g, midX, midY, row);
      assert data == FilteredRow(g, midX, midY, row);
      sent := sent + [Message(row, data)];
      row := row + 1;
    }
  }

  /** The block loop with each spawned worker run to completion in turn:
    * the rows are sent block after block, so row i is the i-th message. */
  method RunBlocks(g: Grid, midX: nat, midY: nat, blocks: seq<Block>) returns (sent: seq<Message>)
    requires g.WellFormed() && Tiles(blocks, g.rows)
    ensures |sent| == g.rows
    ensures forall i :: 0 <= i < |sent| ==> sent[i] == Message(i, FilteredRow(g, midX, midY, i))
  {
    sent := [];
    var id := 0;
    while id < |blocks|
      invariant 0 <= id <= |blocks|
      invariant |sent| == if id == 0 then 0 else blocks[id - 1].end
      invariant forall i :: 0 <= i < |sent| ==> sent[i] == Message(i, FilteredRow(g, midX, midY, i))
    {
      var fromWorker := RunWorker(g, midX, midY, blocks[id]);
      sent := sent + fromWorker;
      id := id + 1;
    }
  }

  /** `schedule` lists the order in which the rows reach the collector: each
    * row index below `rows` exactly once. */
  predicate IsSchedule(schedule: seq<nat>, rows: nat)
  {
    |schedule| == rows &&
    (forall k :: 0 <= k < |schedule| ==> schedule[k] < rows) &&
    (forall k, l :: 0 <= k < l < |schedule| ==> schedule[k] != schedule[l])
  }

  /** The whole filter. Whatever the number of processors and whatever the
    * order in which the rows arrive, the output raster has the input's
    * dimensions and every cell holds the brute-force olympic value for the
    * normalised window. */
  method Filter(g: Grid, filterX: nat, filterY: nat, numProcs: nat, schedule: seq<nat>)
    returns (output: seq<seq<real>>)
    requires g.WellFormed() && numProcs > 0
    requires IsSchedule(schedule, g.rows)
    ensures |output| == g.rows
    ensures forall r :: 0 <= r < g.rows ==> |output[r]| == g.columns
    ensures forall r, c :: 0 <= r < g.rows && 0 <= c < g.columns ==>
      output[r][c] == CellOutput(g, NormalisedWidth(filterX) / 2, NormalisedWidth(filterY) / 2, r, c)
  {
    var sizeX, sizeY, midX, midY := NormaliseWidths(filterX, filterY);
    var blockSize := CappedBlockSize(g.rows, numProcs);
    var blocks := PartitionRows(g.rows, blockSize);
    var sent := RunBlocks(g, midX, midY, blocks);
    var arrived := seq(g.rows, k requires 0 <= k < g.rows => sent[schedule[k]]);
    assert forall k :: 0 <= k < g.rows ==> arrived[k].row == schedule[k];
    output := Collect(g.rows, arrived);
    forall r | 0 <= r < g.rows
      ensures output[r] == FilteredRow(g, midX, midY, r)
    {
      var k := EveryRowArrives(arrived, g.rows, r);
    }
    assert midX == NormalisedWidth(filterX) / 2 && midY == NormalisedWidth(filterY) / 2;
    forall r, c | 0 <= r < g.rows && 0 <= c < g.columns
      ensures output[r][c] == CellOutput(g, midX, midY, r, c)
    {
      assert output[r] == FilteredRow(g, midX, midY, r);
    }
  }
}
