/** The input raster as the filter sees it, and the filter's output defined
  * by brute force: for every cell, the olympic mean of the valid samples in
  * the rectangle centred on it. */
module Grids {
  import opened Samples

  /** A raster: `rows` x `columns` samples and the no-data sentinel. */
  datatype Grid = Grid(rows: nat, columns: nat, noData: real, cells: seq<seq<real>>)
  {
    predicate WellFormed()
    {
      |cells| == rows && forall r :: 0 <= r < |cells| ==> |cells[r]| == columns
    }

    /** The raster accessor: total, and no-data off the edge of the grid. */
    function Get(r: int, c: int): real
      requires WellFormed()
    {
      if 0 <= r < rows && 0 <= c < columns then cells[r][c] else noData
    }
  }

  /** Valid samples of column c, rows top .. top + height - 1, top to bottom:
    * off-grid and no-data samples are skipped. */
  function StripValues(g: Grid, c: int, top: int, height: nat): seq<real>
    requires g.WellFormed()
  {
    if height == 0 then []
    else
      var z := g.Get(top + height - 1, c);
      StripValues(g, c, top, height - 1) + (if z != g.noData then [z] else [])
  }

  /** Valid samples of the rectangle of columns left .. left + width - 1 and
    * rows top .. top + height - 1, strip by strip from the left. */
  function WindowValues(g: Grid, left: int, width: nat, top: int, height: nat): seq<real>
    requires g.WellFormed()
  {
    if width == 0 then []
    else WindowValues(g, left, width - 1, top, height) + StripValues(g, left + width - 1, top, height)
  }

  /** Valid samples of the (2 midX + 1) x (2 midY + 1) rectangle centred on (row, col). */
  function Neighbourhood(g: Grid, midX: nat, midY: nat, row: int, col: int): seq<real>
    requires g.WellFormed()
  {
    WindowValues(g, col - midX, 2 * midX + 1, row - midY, 2 * midY + 1)
  }

  /** What the filter writes at (row, col): no-data where the centre is
    * no-data, otherwise the olympic mean of the neighbourhood. */
  function CellOutput(g: Grid, midX: nat, midY: nat, row: int, col: int): real
    requires g.WellFormed()
  {
    if g.Get(row, col) == g.noData then g.noData
    else
      CentreCounted(g, midX, midY, row, col);
      OlympicMean(Neighbourhood(g, midX, midY, row, col))
  }

  /** One output row of the filter. */
  function FilteredRow(g: Grid, midX: nat, midY: nat, row: int): (r: seq<real>)
    requires g.WellFormed()
    ensures |r| == g.columns
    ensures forall c :: 0 <= c < g.columns ==> r[c] == CellOutput(g, midX, midY, row, c)
  {
    seq(g.columns, c => CellOutput(g, midX, midY, row, c))
  }

  lemma {:induction false} StripHasSample(g: Grid, c: int, top: int, height: nat, k: nat)
    requires g.WellFormed()
    requires k < height && g.Get(top + k, c) != g.noData
    ensures |StripValues(g, c, top, height)| >= 1
  {
    if k < height - 1 {
      StripHasSample(g, c, top, height - 1, k);
    }
  }

  lemma {:induction false} WindowHasStrip(g: Grid, left: int, width: nat, top: int, height: nat, k: nat)
    requires g.WellFormed()
    requires k < width
    ensures |WindowValues(g, left, width, top, height)| >= |StripValues(g, left + k, top, height)|
  {
    if k < width - 1 {
      WindowHasStrip(g, left, width - 1, top, height, k);
    }
  }

  /** A valid centre lies in its own neighbourhood, so the neighbourhood is
    * never empty and the filter never divides by zero. */
  lemma CentreCounted(g: Grid, midX: nat, midY: nat, row: int, col: int)
    requires g.WellFormed()
    requires g.Get(row, col) != g.noData
    ensures |Neighbourhood(g, midX, midY, row, col)| >= 1
  {
    StripHasSample(g, col, row - midY, 2 * midY + 1, midY);
    WindowHasStrip(g, col - midX, 2 * midX + 1, row - midY, 2 * midY + 1, midX);
  }

  /** The filter keeps every output cell within the range of the valid
    * samples around it, and leaves no-data centres as no-data. */
  lemma CellOutputInRange(g: Grid, midX: nat, midY: nat, row: int, col: int)
    requires g.WellFormed()
    ensures g.Get(row, col) == g.noData ==> CellOutput(g, midX, midY, row, col) == g.noData
    ensures g.Get(row, col) != g.noData ==>
      var vs := Neighbourhood(g, midX, midY, row, col);
      |vs| >= 1 && Smallest(vs) <= CellOutput(g, midX, midY, row, col) <= Largest(vs)
  {
    if g.Get(row, col) != g.noData {
      CentreCounted(g, midX, midY, row, col);
      OlympicMeanInRange(Neighbourhood(g, midX, midY, row, col));
    }
  }
}
