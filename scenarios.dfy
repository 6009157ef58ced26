/** Small clients of the percolation grid: each builds an N-by-N grid, opens
    some sites and queries it, and its postcondition states what the queries
    answer. */
module Scenarios {
  import opened Grid
  import opened PercolationModel

  /** A fresh N-by-N grid */
  method Fresh(N: int) returns (p: Percolation)
    requires N > 0
    ensures fresh(p.arr) && fresh(p.objPerc) && fresh(p.objFull)
    ensures p.Valid() && p.length == N && p.OpenSites() == {}
  {
    var g := Create(N);
    p := g.value;
  }

  /** Opens the site (i, j) of the grid */
  method OpenSite(p: Percolation, i: int, j: int)
    requires p.Valid() && InGrid(p.length, (i, j))
    modifies p.arr, p.objPerc, p.objFull
    ensures p.Valid() && p.OpenSites() == old(p.OpenSites()) + {(i, j)}
  {
    var _ := p.Open(i, j);
  }

  /** Opening the corner (1, 1) of a fresh grid makes it open and full; the
      system then percolates exactly when the grid is 1-by-1. */
  method OpenCorner(N: int) returns (open: bool, full: bool, percolates: bool)
    requires N > 0
    ensures open && full
    ensures percolates <==> N == 1
  {
    var p := Fresh(N);
    OpenSite(p, 1, 1);
    assert p.OpenSites() == {(1, 1)};
    open := p.IsOpen(1, 1).value;
    assert OpenPath(p.OpenSites(), [(1, 1)]);
    full := p.IsFull(1, 1).value;
    percolates := p.Percolates();
  }

  /** Opens (1, 1) and (1, 2) of a fresh N-by-N grid */
  method TopRowOpened(N: int) returns (p: Percolation)
    requires N >= 2
    ensures fresh(p.arr) && fresh(p.objPerc) && fresh(p.objFull)
    ensures p.Valid() && p.length == N && p.OpenSites() == {(1, 1), (1, 2)}
  {
    p := Fresh(N);
    OpenSite(p, 1, 1);
    assert p.OpenSites() == {(1, 1)};
    OpenSite(p, 1, 2);
  }

  /** With the top-row sites (1, 1) and (1, 2) open, both are full and the
      system does not percolate. */
  method TopRow(N: int) returns (full11: bool, full12: bool, percolates: bool)
    requires N >= 2
    ensures full11 && full12 && !percolates
  {
    var p := TopRowOpened(N);
    TopRowOnly(N);
    full11 := p.IsFull(1, 1).value;
    full12 := p.IsFull(1, 2).value;
    percolates := p.Percolates();
  }

  /** Opening (2, 1) below the open top row makes a 2-by-2 grid percolate,
      while the blocked (2, 2) is not full. */
  method TopRowThenDown(N: int) returns (percolates: bool, full22: bool)
    requires N >= 2
    ensures percolates <==> N == 2
    ensures !full22
  {
    var p := DownOpened(N);
    DownSpans(N);
    percolates := p.Percolates();
    assert (2, 2) !in p.OpenSites();
    full22 := p.IsFull(2, 2).value;
  }

  /** Opens (1, 1), (1, 2) and (2, 1) of a fresh N-by-N grid */
  method DownOpened(N: int) returns (p: Percolation)
    requires N >= 2
    ensures p.Valid() && p.length == N && p.OpenSites() == {(1, 1), (1, 2), (2, 1)}
  {
    p := TopRowOpened(N);
    OpenSite(p, 2, 1);
  }

  /** Both top-row sites are full, and no open chain of them reaches row N */
  lemma TopRowOnly(N: int)
    requires N >= 2
    ensures FullSite({(1, 1), (1, 2)}, (1, 1)) && FullSite({(1, 1), (1, 2)}, (1, 2))
    ensures !Spans(N, {(1, 1), (1, 2)})
  {
    assert OpenPath({(1, 1), (1, 2)}, [(1, 1)]) && OpenPath({(1, 1), (1, 2)}, [(1, 2)]);
  }

  /** An open chain from the top row to row N of these three sites exists
      exactly when N is 2 */
  lemma DownSpans(N: int)
    requires N >= 2
    ensures Spans(N, {(1, 1), (1, 2), (2, 1)}) <==> N == 2
  {
    if N == 2 {
      assert OpenPath({(1, 1), (1, 2), (2, 1)}, [(1, 1), (2, 1)]);
    }
  }

  /** Backwash: a 3-by-3 grid that percolates down its first column, with the
      bottom-row site (3, 3) also open. (3, 3) is joined to the bottom node in
      objPerc, and so to the top node there, yet it is not reported full. */
  method Backwash() returns (percolates: bool, full33: bool)
    ensures percolates && !full33
  {
    var p := BackwashGridOpened(3);
    BackwashExample();
    percolates := p.Percolates();
    full33 := p.IsFull(3, 3).value;
  }

  /** Opens (1, 1), (2, 1), (3, 1) and (3, 3) of a fresh N-by-N grid */
  method BackwashGridOpened(N: int) returns (p: Percolation)
    requires N >= 3
    ensures p.Valid() && p.length == N && p.OpenSites() == BackwashGrid()
  {
    p := ColumnStartOpened(N);
    OpenSite(p, 3, 1);
    assert p.OpenSites() == {(1, 1), (2, 1), (3, 1)};
    OpenSite(p, 3, 3);
  }

  /** Opens (1, 1) and (2, 1) of a fresh N-by-N grid */
  method ColumnStartOpened(N: int) returns (p: Percolation)
    requires N >= 2
    ensures fresh(p.arr) && fresh(p.objPerc) && fresh(p.objFull)
    ensures p.Valid() && p.length == N && p.OpenSites() == {(1, 1), (2, 1)}
  {
    p := Fresh(N);
    OpenSite(p, 1, 1);
    assert p.OpenSites() == {(1, 1)};
    OpenSite(p, 2, 1);
  }

  /** Indices 0 and N + 1 are out of bounds for every operation, and sizes 0
      and -1 are rejected at construction. */
  method Boundaries(N: int) returns (errors: seq<Error>)
    requires N > 0
    ensures errors == [IndexOutOfBounds, IndexOutOfBounds, IndexOutOfBounds, IndexOutOfBounds, IllegalArgument, IllegalArgument]
  {
    var p := Fresh(N);
    var r1 := p.Open(0, 1);
    var r2 := p.Open(1, N + 1);
    var r3 := p.IsOpen(N + 1, 1);
    var r4 := p.IsFull(1, 0);
    var g0 := Create(0);
    var g1 := Create(-1);
    errors := [r1.error, r2.error, r3.error, r4.error, g0.error, g1.error];
  }
}
