/** Two small rasters worked through by hand: the 5 x 5 raster holding
  * 1 .. 25 row by row with no-data -999, filtered with a 3 x 3 window, and
  * the same raster with its centre replaced by no-data. */
module WorkedExamples {
  import opened Samples
  import opened Grids

  const FiveByFive := Grid(5, 5, -999.0,
    [[1.0, 2.0, 3.0, 4.0, 5.0],
     [6.0, 7.0, 8.0, 9.0, 10.0],
     [11.0, 12.0, 13.0, 14.0, 15.0],
     [16.0, 17.0, 18.0, 19.0, 20.0],
     [21.0, 22.0, 23.0, 24.0, 25.0]])

  const HoleInCentre := Grid(5, 5, -999.0,
    [[1.0, 2.0, 3.0, 4.0, 5.0],
     [6.0, 7.0, 8.0, 9.0, 10.0],
     [11.0, 12.0, -999.0, 14.0, 15.0],
     [16.0, 17.0, 18.0, 19.0, 20.0],
     [21.0, 22.0, 23.0, 24.0, 25.0]])

  lemma SumOfThree(x: real, y: real, z: real)
    ensures Sum([x, y, z]) == x + y + z
  {
    assert [x, y, z][..2] == [x, y];
    assert [x, y][..1] == [x];
    assert [x][..0] == [];
    assert Sum([x]) == x;
    assert Sum([x, y]) == x + y;
  }

  lemma SumOfTwo(x: real, y: real)
    ensures Sum([x, y]) == x + y
  {
    assert [x, y][..1] == [x];
    assert [x][..0] == [];
    assert Sum([x]) == x;
  }

  /** The centre of the 5 x 5 raster: the 3 x 3 neighbourhood is 7, 8, 9,
    * 12, 13, 14, 17, 18, 19; dropping 7 and 19 leaves 91 over 7 cells. */
  lemma CentreOfFiveByFive()
    ensures FiveByFive.WellFormed()
    ensures CellOutput(FiveByFive, 1, 1, 2, 2) == 13.0
  {
    var g := FiveByFive;
    assert g.WellFormed();
    var a, b, c := [7.0, 12.0, 17.0], [8.0, 13.0, 18.0], [9.0, 14.0, 19.0];
    assert StripValues(g, 1, 1, 3) == a;
    assert StripValues(g, 2, 1, 3) == b;
    assert StripValues(g, 3, 1, 3) == c;
    var vs := a + b + c;
    assert Neighbourhood(g, 1, 1, 2, 2) == vs;
    SumOfConcat(a + b, c);
    SumOfConcat(a, b);
    SumOfThree(7.0, 12.0, 17.0);
    SumOfThree(8.0, 13.0, 18.0);
    SumOfThree(9.0, 14.0, 19.0);
    var iMin := SmallestIsLeast(vs);
    var iMax := LargestIsGreatest(vs);
    assert forall j :: 0 <= j < |vs| ==> 7.0 <= vs[j] <= 19.0;
    assert vs[0] == 7.0 && vs[8] == 19.0;
  }

  /** A no-data centre stays no-data, and its left neighbour sees only the
    * eight valid samples around it: 6, 7, 8, 11, 12, 16, 17, 18, which
    * without 6 and 18 leave 71 over 6 cells. */
  lemma HoleIsSkipped()
    ensures HoleInCentre.WellFormed()
    ensures CellOutput(HoleInCentre, 1, 1, 2, 2) == -999.0
    ensures |Neighbourhood(HoleInCentre, 1, 1, 2, 1)| == 8
    ensures CellOutput(HoleInCentre, 1, 1, 2, 1) == 71.0 / 6.0
  {
    var g := HoleInCentre;
    assert g.WellFormed();
    var a, b, c := [6.0, 11.0, 16.0], [7.0, 12.0, 17.0], [8.0, 18.0];
    assert StripValues(g, 0, 1, 3) == a;
    assert StripValues(g, 1, 1, 3) == b;
    assert StripValues(g, 2, 1, 3) == c;
    var vs := a + b + c;
    assert Neighbourhood(g, 1, 1, 2, 1) == vs;
    SumOfConcat(a + b, c);
    SumOfConcat(a, b);
    SumOfThree(6.0, 11.0, 16.0);
    SumOfThree(7.0, 12.0, 17.0);
    SumOfTwo(8.0, 18.0);
    var iMin := SmallestIsLeast(vs);
    var iMax := LargestIsGreatest(vs);
    assert forall j :: 0 <= j < |vs| ==> 6.0 <= vs[j] <= 18.0;
    assert vs[0] == 6.0 && vs[7] == 18.0;
    assert Smallest(vs) == 6.0 && Largest(vs) == 18.0 && Sum(vs) == 95.0;
  }
}
