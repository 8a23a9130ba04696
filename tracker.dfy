/** The sliding window of vertical-strip aggregates that one worker keeps
  * for one output row: four parallel deques of strip minimums, maximums,
  * totals and counts, filled once at column 0 and then moved one column to
  * the right per step (pop the leftmost strip, push a freshly scanned one). */
module WindowTracker {
  import opened Samples
  import opened Grids

  /** The aggregate of column c, rows top .. top + height - 1, folded in
    * cell by cell straight from the grid. */
  function StripAggregate(g: Grid, c: int, top: int, height: nat): Strip
    requires g.WellFormed()
  {
    if height == 0 then Empty
    else
      var z := g.Get(top + height - 1, c);
      var s := StripAggregate(g, c, top, height - 1);
      if z != g.noData then Include(s, z) else s
  }

  /** The aggregate of the columns left .. left + width - 1, merged strip by
    * strip from the left. */
  function WindowAggregate(g: Grid, left: int, width: nat, top: int, height: nat): Strip
    requires g.WellFormed()
  {
    if width == 0 then Empty
    else Merge(WindowAggregate(g, left, width - 1, top, height), StripAggregate(g, left + width - 1, top, height))
  }

  /** The cell-by-cell aggregate of a strip is the aggregate of its valid samples. */
  lemma {:induction false} StripAggregateMeaning(g: Grid, c: int, top: int, height: nat)
    requires g.WellFormed()
    ensures StripAggregate(g, c, top, height) == Summary(StripValues(g, c, top, height))
  {
    if height > 0 {
      var z := g.Get(top + height - 1, c);
      StripAggregateMeaning(g, c, top, height - 1);
      if z != g.noData {
        SummaryOfSnoc(StripValues(g, c, top, height - 1), z);
      } else {
        assert StripValues(g, c, top, height) == StripValues(g, c, top, height - 1) + [];
        assert StripValues(g, c, top, height - 1) + [] == StripValues(g, c, top, height - 1);
      }
    }
  }

  /** One step of the strip-by-strip merge, stated on the values alone. */
  lemma MergeStep(whole: Strip, first: Strip, last: Strip, vs: seq<real>, firstValues: seq<real>, lastValues: seq<real>)
    requires vs == firstValues + lastValues && whole == Merge(first, last)
    requires first == Summary(firstValues) && last == Summary(lastValues)
    ensures whole == Summary(vs)
  {
    SummaryOfConcat(firstValues, lastValues);
  }

  /** Merging the strip aggregates gives the aggregate of all the valid
    * samples of the rectangle. */
  lemma {:induction false} WindowAggregateMeaning(g: Grid, left: int, width: nat, top: int, height: nat)
    requires g.WellFormed()
    ensures WindowAggregate(g, left, width, top, height) == Summary(WindowValues(g, left, width, top, height))
  {
    if width == 0 {
      assert WindowValues(g, left, width, top, height) == [];
    } else {
      var first, last := WindowValues(g, left, width - 1, top, height), StripValues(g, left + width - 1, top, height);
      assert WindowValues(g, left, width, top, height) == first + last;
      WindowAggregateMeaning(g, left, width - 1, top, height);
      StripAggregateMeaning(g, left + width - 1, top, height);
      MergeStep(WindowAggregate(g, left, width, top, height),
                WindowAggregate(g, left, width - 1, top, height), StripAggregate(g, left + width - 1, top, height),
                WindowValues(g, left, width, top, height), first, last);
    }
  }

  /** The four deques hold, slot by slot, the aggregates of the `width`
    * strips whose leftmost column is `left`. */
  predicate Tracks(mins: seq<Ext>, maxs: seq<Ext>, totals: seq<real>, counts: seq<nat>,
                   g: Grid, left: int, width: nat, top: int, height: nat)
    requires g.WellFormed()
  {
    |mins| == width && |maxs| == width && |totals| == width && |counts| == width &&
    forall i {:trigger mins[i]} :: 0 <= i < width ==>
      Strip(mins[i], maxs[i], totals[i], counts[i]) == StripAggregate(g, left + i, top, height)
  }

  /** Scans column c from row top down `height` rows, skipping no-data and
    * off-grid samples, and returns the strip's minimum, maximum, total and
    * count: the aggregate of the strip's valid samples. */
  method ScanStrip(g: Grid, c: int, top: int, height: nat)
    returns (lo: Ext, hi: Ext, sum: real, n: nat)
    requires g.WellFormed()
    ensures Strip(lo, hi, sum, n) == Summary(StripValues(g, c, top, height))
    ensures Strip(lo, hi, sum, n) == StripAggregate(g, c, top, height)
  {
    lo, hi, sum, n := PosInf, NegInf, 0.0, 0;
    var k := 0;
    while k < height
      invariant 0 <= k <= height
      invariant Strip(lo, hi, sum, n) == StripAggregate(g, c, top, k)
    {
      var z := g.Get(top + k, c);
      if z != g.noData {
        if Below(Fin(z), lo) { lo := Fin(z); }
        if Below(hi, Fin(z)) { hi := Fin(z); }
        sum := sum + z;
        n := n + 1;
      }
      k := k + 1;
    }
    StripAggregateMeaning(g, c, top, height);
  }

  /** The initial fill at column 0: scans the `width` strips of columns
    * left .. left + width - 1 and pushes each onto the back of the deques. */
  method FillWindow(g: Grid, left: int, width: nat, top: int, height: nat)
    returns (mins: seq<Ext>, maxs: seq<Ext>, totals: seq<real>, counts: seq<nat>)
    requires g.WellFormed()
    ensures Tracks(mins, maxs, totals, counts, g, left, width, top, height)
  {
    mins, maxs, totals, counts := [], [], [], [];
    var k := 0;
    while k < width
      invariant 0 <= k <= width
      invariant Tracks(mins, maxs, totals, counts, g, left, k, top, height)
    {
      var lo, hi, sum, n := ScanStrip(g, left + k, top, height);
      mins, maxs, totals, counts := mins + [lo], maxs + [hi], totals + [sum], counts + [n];
      k := k + 1;
    }
  }

  /** One step to the right, onto the window whose leftmost column is
    * `left`: pops the strip of column `left - 1` off every deque and pushes
    * the aggregate of the entering column `left + width - 1`. The deques
    * keep their common length. */
  method AdvanceWindow(mins: seq<Ext>, maxs: seq<Ext>, totals: seq<real>, counts: seq<nat>,
                       g: Grid, left: int, width: nat, top: int, height: nat)
    returns (mins': seq<Ext>, maxs': seq<Ext>, totals': seq<real>, counts': seq<nat>)
    requires g.WellFormed() && width > 0
    requires Tracks(mins, maxs, totals, counts, g, left - 1, width, top, height)
    ensures Tracks(mins', maxs', totals', counts', g, left, width, top, height)
  {
    mins', maxs', totals', counts' := mins[1..], maxs[1..], totals[1..], counts[1..];
    var lo, hi, sum, n := ScanStrip(g, left + width - 1, top, height);
    mins', maxs', totals', counts' := mins' + [lo], maxs' + [hi], totals' + [sum], counts' + [n];
  }

  /** The reduction over the deques: the combined minimum, maximum, total and
    * count equal the aggregate of all the valid samples of the rectangle. */
  method Reduce(mins: seq<Ext>, maxs: seq<Ext>, totals: seq<real>, counts: seq<nat>,
                ghost g: Grid, ghost left: int, ghost width: nat, ghost top: int, ghost height: nat)
    returns (lo: Ext, hi: Ext, sum: real, n: nat)
    requires g.WellFormed()
    requires Tracks(mins, maxs, totals, counts, g, left, width, top, height)
    ensures Strip(lo, hi, sum, n) == WindowAggregate(g, left, width, top, height)
    ensures Strip(lo, hi, sum, n) == Summary(WindowValues(g, left, width, top, height))
  {
    lo, hi, sum, n := PosInf, NegInf, 0.0, 0;
    var i := 0;
    while i < |mins|
      invariant 0 <= i <= width
      invariant Strip(lo, hi, sum, n) == WindowAggregate(g, left, i, top, height)
    {
      assert Strip(mins[i], maxs[i], totals[i], counts[i]) == StripAggregate(g, left + i, top, height);
      if Below(mins[i], lo) { lo := mins[i]; }
      if Below(hi, maxs[i]) { hi := maxs[i]; }
      sum := sum + totals[i];
      n := n + counts[i];
      i := i + 1;
    }
    WindowAggregateMeaning(g, left, width, top, height);
  }
}
