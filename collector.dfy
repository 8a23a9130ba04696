/** The result collector: receives one (row index, row data) message per
  * row, in whatever order the workers finish, and stores each row at its
  * own index of the output raster. */
module Collector {

  /** What a worker sends after finishing a row. */
  datatype Message = Message(row: nat, data: seq<real>)

  /** `rows` messages, one for each row index below `rows`. */
  predicate ExactlyOnce(msgs: seq<Message>, rows: nat)
  {
    |msgs| == rows &&
    (forall i :: 0 <= i < |msgs| ==> msgs[i].row < rows) &&
    (forall i, j :: 0 <= i < j < |msgs| ==> msgs[i].row != msgs[j].row)
  }

  /** `grid` has `rows` rows and holds every message's data at its index. */
  predicate Assembles(grid: seq<seq<real>>, msgs: seq<Message>, rows: nat)
  {
    |grid| == rows &&
    forall i :: 0 <= i < |msgs| ==> msgs[i].row < rows && grid[msgs[i].row] == msgs[i].data
  }

  /** Receives the messages in arrival order and stores each row at its index. */
  method Collect(rows: nat, msgs: seq<Message>) returns (grid: seq<seq<real>>)
    requires ExactlyOnce(msgs, rows)
    ensures Assembles(grid, msgs, rows)
  {
    var output := new seq<real>[rows](_ => []);
    var k := 0;
    while k < rows
      invariant 0 <= k <= rows
      invariant forall i :: 0 <= i < k ==> output[msgs[i].row] == msgs[i].data
    {
      var message := msgs[k];
      output[message.row] := message.data;
      k := k + 1;
    }
    grid := output[..];
  }

  function RowsOf(msgs: seq<Message>): set<nat>
  {
    if msgs == [] then {} else RowsOf(msgs[..|msgs| - 1]) + {msgs[|msgs| - 1].row}
  }

  lemma {:induction false} RowsOfMembers(msgs: seq<Message>, r: nat)
    ensures r in RowsOf(msgs) <==> exists i :: 0 <= i < |msgs| && msgs[i].row == r
  {
    if msgs != [] {
      var init := msgs[..|msgs| - 1];
      RowsOfMembers(init, r);
      if exists i :: 0 <= i < |init| && init[i].row == r {
        var i :| 0 <= i < |init| && init[i].row == r;
        assert msgs[i].row == r;
      }
      if exists i :: 0 <= i < |msgs| && msgs[i].row == r {
        var i :| 0 <= i < |msgs| && msgs[i].row == r;
        if i < |init| {
          assert init[i].row == r;
        }
      }
    }
  }

  lemma {:induction false} RowsOfSize(msgs: seq<Message>)
    requires forall i, j :: 0 <= i < j < |msgs| ==> msgs[i].row != msgs[j].row
    ensures |RowsOf(msgs)| == |msgs|
  {
    if msgs != [] {
      var init := msgs[..|msgs| - 1];
      var last := msgs[|msgs| - 1].row;
      RowsOfSize(init);
      RowsOfMembers(init, last);
      assert last !in RowsOf(init);
    }
  }

  function RowsBelow(n: nat): set<nat>
  {
    if n == 0 then {} else RowsBelow(n - 1) + {n - 1}
  }

  lemma {:induction false} RowsBelowMembers(n: nat)
    ensures |RowsBelow(n)| == n
    ensures forall r: nat :: r in RowsBelow(n) <==> r < n
  {
    if n > 0 {
      RowsBelowMembers(n - 1);
    }
  }

  lemma SubsetSize(a: set<nat>, b: set<nat>)
    requires a <= b
    ensures |a| <= |b|
    decreases |a|
  {
    if a != {} {
      var x :| x in a;
      SubsetSize(a - {x}, b - {x});
    }
  }

  /** No row goes missing: when the messages name distinct rows below
    * `rows` and there are `rows` of them, every row index arrives. */
  lemma EveryRowArrives(msgs: seq<Message>, rows: nat, r: nat) returns (i: nat)
    requires ExactlyOnce(msgs, rows)
    requires r < rows
    ensures i < |msgs| && msgs[i].row == r
  {
    RowsOfSize(msgs);
    RowsBelowMembers(rows);
    var seen := RowsOf(msgs);
    forall x | x in seen ensures x in RowsBelow(rows) {
      RowsOfMembers(msgs, x);
    }
    assert seen <= RowsBelow(rows);
    if r !in seen {
      SubsetSize(seen, RowsBelow(rows) - {r});
      assert false;
    }
    RowsOfMembers(msgs, r);
    i :| 0 <= i < |msgs| && msgs[i].row == r;
  }

  /** The assembled grid does not depend on the order in which the messages
    * arrive: any two arrival orders of the same messages give the same grid. */
  lemma ArrivalOrderIrrelevant(first: seq<Message>, second: seq<Message>, rows: nat,
                               grid1: seq<seq<real>>, grid2: seq<seq<real>>)
    requires ExactlyOnce(first, rows) && multiset(first) == multiset(second)
    requires Assembles(grid1, first, rows) && Assembles(grid2, second, rows)
    ensures grid1 == grid2
  {
    forall r | 0 <= r < rows ensures grid1[r] == grid2[r] {
      var i := EveryRowArrives(first, rows, r);
      assert first[i] in multiset(second);
      var j :| 0 <= j < |second| && second[j] == first[i];
    }
  }
}
