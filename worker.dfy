/** The row worker: produces one output row of the olympic filter by moving
  * the strip window across the row one column at a time. */
module RowWorker {
  import opened Samples
  import opened Grids
  import opened WindowTracker

  /** The value written at a valid centre (row, col): the deques are reduced
    * to the combined minimum, maximum, total and count n of the window, and
    * the mean is taken after dropping the maximum and the minimum when
    * n > 2, untrimmed otherwise. n is at least 1, since the centre itself is
    * counted. */
  method TrimmedMean(mins: seq<Ext>, maxs: seq<Ext>, totals: seq<real>, counts: seq<nat>,
                     ghost g: Grid, ghost midX: nat, ghost midY: nat, ghost row: int, ghost col: int)
    returns (mean: real)
    requires g.WellFormed() && g.Get(row, col) != g.noData
    requires Tracks(mins, maxs, totals, counts, g, col - midX, 2 * midX + 1, row - midY, 2 * midY + 1)
    ensures |Neighbourhood(g, midX, midY, row, col)| >= 1
    ensures mean == OlympicMean(Neighbourhood(g, midX, midY, row, col))
    ensures mean == CellOutput(g, midX, midY, row, col)
  {
    var lo, hi, sum, n := Reduce(mins, maxs, totals, counts, g, col - midX, 2 * midX + 1, row - midY, 2 * midY + 1);
    MeanFromAggregate(g, midX, midY, row, col);
    if n > 2 {
      mean := (sum - hi.v - lo.v) / ((n - 2) as real);
    } else {
      mean := sum / (n as real);
    }
  }

  /** At a valid centre the aggregate of the window is finite and counts at
    * least the centre, and the olympic mean of the neighbourhood follows from
    * it alone. */
  lemma MeanFromAggregate(g: Grid, midX: nat, midY: nat, row: int, col: int)
    requires g.WellFormed() && g.Get(row, col) != g.noData
    ensures |Neighbourhood(g, midX, midY, row, col)| >= 1
    ensures var s := WindowAggregate(g, col - midX, 2 * midX + 1, row - midY, 2 * midY + 1);
      s.lo.Fin? && s.hi.Fin? && s.count >= 1 &&
      OlympicMean(Neighbourhood(g, midX, midY, row, col))
        == if s.count > 2 then (s.sum - s.hi.v - s.lo.v) / ((s.count - 2) as real) else s.sum / (s.count as real)
  {
    var vs := Neighbourhood(g, midX, midY, row, col);
    WindowAggregateMeaning(g, col - midX, 2 * midX + 1, row - midY, 2 * midY + 1);
    assert WindowAggregate(g, col - midX, 2 * midX + 1, row - midY, 2 * midY + 1) == Summary(vs);
    CentreCounted(g, midX, midY, row, col);
    OlympicMeanOfSummary(vs);
  }

  /** Brings the deques to the window of column `col`, whose leftmost column
    * is `left`: filled from scratch at column 0, moved one column to the
    * right at every later column. */
  method SlideWindow(mins: seq<Ext>, maxs: seq<Ext>, totals: seq<real>, counts: seq<nat>,
                     g: Grid, col: nat, left: int, width: nat, top: int, height: nat)
    returns (mins': seq<Ext>, maxs': seq<Ext>, totals': seq<real>, counts': seq<nat>)
    requires g.WellFormed() && width > 0
    requires col > 0 ==> Tracks(mins, maxs, totals, counts, g, left - 1, width, top, height)
    ensures Tracks(mins', maxs', totals', counts', g, left, width, top, height)
  {
    if col > 0 {
      mins', maxs', totals', counts' := AdvanceWindow(mins, maxs, totals, counts, g, left, width, top, height);
    } else {
      mins', maxs', totals', counts' := FillWindow(g, left, width, top, height);
    }
  }

  /** Filters row `row` with a (2 midX + 1) x (2 midY + 1) window. The row
    * starts out all no-data; a cell whose centre is valid is overwritten
    * with the olympic mean of the valid samples around it, computed from the
    * deques rather than by rescanning the rectangle. */
  method FilterRow(g: Grid, midX: nat, midY: nat, row: int) returns (rowData: seq<real>)
    requires g.WellFormed()
    ensures |rowData| == g.columns
    ensures forall c :: 0 <= c < g.columns && g.Get(row, c) == g.noData ==> rowData[c] == g.noData
    ensures forall c :: 0 <= c < g.columns ==> rowData[c] == CellOutput(g, midX, midY, row, c)
  {
    var sizeX := 2 * midX + 1;
    var top, height := row - midY, 2 * midY + 1;
    var data := new real[g.columns](_ => g.noData);
    var mins: seq<Ext>, maxs: seq<Ext>, totals: seq<real>, counts: seq<nat> := [], [], [], [];
    var col := 0;
    while col < g.columns
      invariant 0 <= col <= g.columns
      invariant col > 0 ==> Tracks(mins, maxs, totals, counts, g, col - midX - 1, sizeX, top, height)
      invariant forall c :: 0 <= c < col ==> data[c] == CellOutput(g, midX, midY, row, c)
      invariant forall c :: col <= c < g.columns ==> data[c] == g.noData
    {
      mins, maxs, totals, counts := SlideWindow(mins, maxs, totals, counts, g, col, col - midX, sizeX, top, height);
      var z := g.Get(row, col);
      if z != g.noData {
        data[col] := TrimmedMean(mins, maxs, totals, counts, g, midX, midY, row, col);
      }
      assert data[col] == CellOutput(g, midX, midY, row, col);
      col := col + 1;
    }
    rowData := data[..];
  }
}
