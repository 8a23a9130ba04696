/** The row-block scheduler: cuts the rows 0 .. rows - 1 into contiguous
  * blocks, one per worker thread, with the block size rows / num_procs. */
module Scheduler {

  /** The half-open row range [start, end) given to one worker. */
  datatype Block = Block(start: nat, end: nat)

  /** The block the loop computes on its iteration `id`: it starts at
    * id * blockSize and is cut off at `rows`. */
  function BlockAt(id: nat, blockSize: nat, rows: nat): (b: Block)
    ensures b.start == id * blockSize
    ensures b.end <= b.start + blockSize
    ensures b.start <= rows ==> b.end <= rows
    ensures b.start + blockSize <= rows ==> b.end == b.start + blockSize
    ensures b.start + blockSize > rows ==> b.end == rows
  {
    var start := id * blockSize;
    Block(start, if start + blockSize > rows then rows else start + blockSize)
  }

  /** The blocks are non-empty, back to back, and run from row 0 to `rows`. */
  predicate Tiles(blocks: seq<Block>, rows: nat)
  {
    (blocks == [] ==> rows == 0) &&
    (blocks != [] ==> blocks[0].start == 0 && blocks[|blocks| - 1].end == rows) &&
    (forall k :: 0 <= k < |blocks| ==> blocks[k].start < blocks[k].end) &&
    (forall k :: 0 < k < |blocks| ==> blocks[k - 1].end == blocks[k].start)
  }

  /** The block loop: computes blocks until one reaches `rows`. Every block
    * but the last has exactly `blockSize` rows; the remainder, if any, forms
    * one more, shorter block. The loop ends only if blockSize > 0 or there
    * are no rows at all. */
  method PartitionRows(rows: nat, blockSize: nat) returns (blocks: seq<Block>)
    requires rows == 0 || blockSize > 0
    ensures Tiles(blocks, rows)
    ensures forall k :: 0 <= k < |blocks| ==> blocks[k] == BlockAt(k, blockSize, rows)
    ensures forall k :: 0 <= k < |blocks| - 1 ==> blocks[k].end - blocks[k].start == blockSize
  {
    blocks := [];
    var endingRow: nat := 0;
    var id: nat := 0;
    while endingRow < rows
      invariant id == |blocks| && endingRow <= rows
      invariant Tiles(blocks, endingRow)
      invariant endingRow < rows ==> endingRow == id * blockSize
      invariant forall k :: 0 <= k < id ==> blocks[k] == BlockAt(k, blockSize, rows)
      decreases rows - endingRow
    {
      ghost var endingRowBefore := endingRow;
      var startingRow := id * blockSize;
      endingRow := startingRow + blockSize;
      if endingRow > rows {
        endingRow := rows;
      }
      NextStart(id, blockSize);
      TilesExtend(blocks, endingRowBefore, Block(startingRow, endingRow));
      id := id + 1;
      blocks := blocks + [Block(startingRow, endingRow)];
    }
    FullBlocks(blocks, blockSize, rows);
  }

  /** In a tiling made of the blocks the loop computes, every block but the
    * last is full: the next one starts below `rows`, so no cut-off applied. */
  lemma FullBlocks(blocks: seq<Block>, blockSize: nat, rows: nat)
    requires Tiles(blocks, rows)
    requires forall k :: 0 <= k < |blocks| ==> blocks[k] == BlockAt(k, blockSize, rows)
    ensures forall k :: 0 <= k < |blocks| - 1 ==> blocks[k].end - blocks[k].start == blockSize
  {
    forall k | 0 <= k < |blocks| - 1
      ensures blocks[k].end - blocks[k].start == blockSize
    {
      assert blocks[k].end == blocks[k + 1].start;
      assert blocks[k] == BlockAt(k, blockSize, rows) && blocks[k + 1] == BlockAt(k + 1, blockSize, rows);
      NextStart(k, blockSize);
    }
  }

  /** A tiling of [0, end) extended by a non-empty block starting at `end`
    * is a tiling of [0, next.end); Dafny sees this from the definition. */
  lemma TilesExtend(blocks: seq<Block>, end: nat, next: Block)
    requires Tiles(blocks, end) && next.start == end && next.start < next.end
    ensures Tiles(blocks + [next], next.end)
  {
  }

  lemma NextStart(id: nat, blockSize: nat)
    ensures (id + 1) * blockSize == id * blockSize + blockSize
  {
  }

  lemma {:induction false} BlocksInOrder(blocks: seq<Block>, rows: nat, i: nat, j: nat)
    requires Tiles(blocks, rows)
    requires i < j < |blocks|
    ensures blocks[i].end <= blocks[j].start
  {
    if i < j - 1 {
      BlocksInOrder(blocks, rows, i, j - 1);
    }
  }

  /** Every row lies in exactly one block: no row is skipped and no row is
    * given to two workers. */
  lemma {:induction false} RowInOneBlock(blocks: seq<Block>, rows: nat, r: nat) returns (k: nat)
    requires Tiles(blocks, rows)
    requires r < rows
    ensures k < |blocks| && blocks[k].start <= r < blocks[k].end
    ensures forall k' :: 0 <= k' < |blocks| && blocks[k'].start <= r < blocks[k'].end ==> k' == k
  {
    var last := |blocks| - 1;
    if r >= blocks[last].start {
      k := last;
    } else {
      k := RowInOneBlock(blocks[..last], blocks[last].start, r);
    }
    forall k' | 0 <= k' < |blocks| && blocks[k'].start <= r < blocks[k'].end
      ensures k' == k
    {
      if k' < k {
        BlocksInOrder(blocks, rows, k', k);
      } else if k < k' {
        BlocksInOrder(blocks, rows, k, k');
      }
    }
  }

  /** With fewer rows than processors, rows / num_procs is 0 and every
    * iteration of the block loop yields the empty block [0, 0): `ending_row`
    * stays 0, below `rows`, so the loop never ends. */
  lemma StallsWithMoreProcessorsThanRows(rows: nat, numProcs: nat, id: nat)
    requires 0 < rows < numProcs
    ensures rows / numProcs == 0
    ensures BlockAt(id, rows / numProcs, rows) == Block(0, 0)
  {
  }

  /** Three rows on an eight-processor machine: the smallest kind of input
    * on which the block loop as written does not terminate. */
  lemma ThreeRowsEightProcessors()
    ensures forall id: nat :: BlockAt(id, 3 / 8, 3).end == 0 < 3
  {
    forall id: nat ensures BlockAt(id, 3 / 8, 3).end == 0 {
      StallsWithMoreProcessorsThanRows(3, 8, id);
    }
  }

  /** The block size with the number of workers capped at the number of
    * rows: positive whenever there is a row, and equal to rows / num_procs
    * whenever that is already positive. */
  function CappedBlockSize(rows: nat, numProcs: nat): (b: nat)
    requires numProcs > 0
    ensures rows > 0 ==> 0 < b <= rows
    ensures rows >= numProcs ==> b == rows / numProcs
  {
    var workers := if rows < numProcs then rows else numProcs;
    if workers == 0 then 0 else QuotientPositive(rows, workers); rows / workers
  }

  lemma QuotientPositive(a: nat, d: nat)
    requires 0 < d <= a
    ensures 0 < a / d <= a
  {
    var q, r := a / d, a % d;
    assert a == q * d + r && r < d;
    ProductAtLeast(q, d);
  }

  lemma {:induction false} ProductAtLeast(q: nat, d: nat)
    requires d >= 1
    ensures q * d >= q
  {
    if q > 0 {
      ProductAtLeast(q - 1, d);
      assert q * d == (q - 1) * d + d;
    }
  }
}
