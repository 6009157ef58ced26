/** The percolation grid: an N-by-N grid of sites, each blocked or open, that
    keeps two union-find structures up to date as sites are opened one at a
    time. `objPerc` holds the sites, a virtual top node and a virtual bottom
    node and answers "does the system percolate"; `objFull` holds the sites and
    the top node only and answers "is this site full". The bottom row is joined
    to the bottom node in `objPerc` alone, so that once the system percolates,
    sites that merely reach the bottom row are not reported full (backwash). */
module PercolationModel {
  import opened Graph
  import opened DisjointSets
  import opened Grid

  /** The exceptions the grid raises */
  datatype Error = IllegalArgument | IndexOutOfBounds

  datatype Result<T> = Ok(value: T) | Err(error: Error) {
    predicate IsFailure() {
      Err?
    }

    function PropagateFailure<U>(): Result<U>
      requires Err?
    {
      Err(error)
    }

    function Extract(): T
      requires Ok?
    {
      value
    }
  }

  /** Creates an N-by-N grid with every site blocked; N must be positive. */
  method Create(N: int) returns (r: Result<Percolation>)
    ensures r.Err? <==> N <= 0
    ensures r.Err? ==> r.error == IllegalArgument
    ensures r.Ok? ==> fresh(r.value) && r.value.Valid() && r.value.length == N
    ensures r.Ok? ==> fresh(r.value.arr) && fresh(r.value.objPerc) && fresh(r.value.objFull)
    ensures r.Ok? ==> r.value.OpenSites() == {} && !Spans(N, r.value.OpenSites())
  {
    if N <= 0 {
      return Err(IllegalArgument);
    }
    var p := new Percolation(N);
    return Ok(p);
  }

  class Percolation {
    /** N: the number of rows, and of columns */
    const length: int
    /** arr[i, j] tells whether site (i, j) is open; row 0 and column 0 are unused */
    const arr: array2<bool>
    /** the sites, the top node N*N and the bottom node N*N+1 */
    const objPerc: UnionFind
    /** the sites and the top node N*N; the bottom node is never joined here */
    const objFull: UnionFind

    ghost predicate Shaped() {
      length > 0 && arr.Length0 == length + 1 && arr.Length1 == length + 1
    }

    /** the open sites of the grid */
    ghost function OpenSites(): (open: set<Site>)
      reads arr
      requires Shaped()
      ensures WithinGrid(length, open)
    {
      set i, j | 1 <= i <= length && 1 <= j <= length && arr[i, j] :: (i, j)
    }

    /** Both structures only ever received unions of grid edges, every union
        given to objFull was also given to objPerc, and every edge between open
        sites (and, for the top row, the top node; for objPerc and the bottom
        row, the bottom node) lies within one component. */
    ghost predicate Valid()
      reads arr, objPerc, objFull
    {
      && Shaped()
      && objPerc != objFull
      && objPerc.Valid() && objFull.Valid()
      && |objPerc.id| == length * length + 2 && |objFull.id| == length * length + 2
      && objFull.edges <= objPerc.edges
      && objFull.edges <= FullEdges(length, OpenSites())
      && objPerc.edges <= PercEdges(length, OpenSites())
      && objFull.Covers(FullEdges(length, OpenSites()))
      && objPerc.Covers(PercEdges(length, OpenSites()))
    }

    constructor (N: int)
      requires N > 0
      ensures Valid() && length == N
      ensures OpenSites() == {}
      ensures fresh(arr) && fresh(objPerc) && fresh(objFull)
    {
      objPerc := new UnionFind(N * N + 2);
      objFull := new UnionFind(N * N + 2);
      arr := new bool[N + 1, N + 1];
      length := N;
      new;
      for i := 1 to N + 1
        modifies arr
        invariant forall a, b | 1 <= a < i && 1 <= b <= N :: !arr[a, b]
      {
        for j := 1 to N + 1
          modifies arr
          invariant forall a, b | 1 <= a < i && 1 <= b <= N :: !arr[a, b]
          invariant forall b | 1 <= b < j :: !arr[i, b]
        {
          arr[i, j] := false;
        }
      }
      assert OpenSites() == {};
      assert FullEdges(N, {}) == {};
      assert PercEdges(N, {}) == {};
    }

    /** A row or column index must lie in 1..N */
    function Validate(p: int): (r: Result<()>)
      ensures r.Ok? <==> 1 <= p <= length
      ensures r.Err? ==> r.error == IndexOutOfBounds
    {
      if p < 1 || p > length then Err(IndexOutOfBounds) else Ok(())
    }

    /** Opens site (i, j) if it is blocked, joining it to its open neighbours
        in both structures, to the top node in both if it is in the first row,
        and to the bottom node in objPerc only if it is in the last row. */
    method Open(i: int, j: int) returns (r: Result<()>)
      requires Valid()
      modifies arr, objPerc, objFull
      ensures Valid()
      ensures r.Err? <==> !InGrid(length, (i, j))
      ensures r.Err? ==> r.error == IndexOutOfBounds
      ensures OpenSites() == if r.Ok? then old(OpenSites()) + {(i, j)} else old(OpenSites())
      ensures forall a, b | 0 <= a <= length && 0 <= b <= length && (a, b) != (i, j) :: arr[a, b] == old(arr[a, b])
      ensures (r.Err? || old(arr[i, j])) ==> unchanged(arr, objPerc, objFull)
    {
      var _ :- Validate(i);
      var _ :- Validate(j);
      if arr[i, j] {
        return Ok(());
      }
      OpenBlocked(i, j);
      r := Ok(());
    }

    /** The body of `open` for a blocked site in the grid */
    method OpenBlocked(i: int, j: int)
      requires Valid() && InGrid(length, (i, j)) && !arr[i, j]
      modifies arr, objPerc, objFull
      ensures Valid() && OpenSites() == old(OpenSites()) + {(i, j)}
      ensures forall a, b | 0 <= a <= length && 0 <= b <= length && (a, b) != (i, j) :: arr[a, b] == old(arr[a, b])
    {
      ghost var open0 := MarkOpen(i, j);
      JoinAll(i, j, open0);
    }

    /** Makes every union that opening (i, j) calls for, in the order `open`
        makes them: neighbours, then the top node, then the bottom node */
    method JoinAll(i: int, j: int, ghost open0: set<Site>)
      requires Opening(open0, i, j, {})
      requires Shaped() && OpenSites() == open0 + {(i, j)}
      modifies objPerc, objFull
      ensures Valid()
    {
      ghost var around := JoinNeighbours(i, j, open0);
      ghost var joined := JoinTop(i, j, open0, around);
      JoinedAroundGrows(length, open0, (i, j), around, joined);
      JoinBottom(i, j, open0, joined);
      Opened(open0, i, j, joined);
    }

    /** The state in the middle of opening the blocked site (i, j), with open0
        the sites open before: both structures are valid and hold only edges
        of the grid with (i, j) open, objPerc received every union objFull
        did, and every edge of the grid before the opening, and every edge
        joined so far, lies within one component. */
    ghost predicate Opening(open0: set<Site>, i: int, j: int, joined: set<Edge>)
      reads objPerc, objFull
    {
      && length > 0 && WithinGrid(length, open0) && InGrid(length, (i, j)) && (i, j) !in open0
      && Structures() && Bounded(open0 + {(i, j)}) && Covering(open0, joined)
    }

    /** two distinct valid structures over the grid's sites and virtual nodes */
    ghost predicate Structures()
      reads objPerc, objFull
    {
      && objPerc != objFull && objPerc.Valid() && objFull.Valid()
      && |objPerc.id| == length * length + 2 && |objFull.id| == length * length + 2
    }

    /** every union made was an edge of the grid with the given sites open, and
        objPerc received every union objFull did */
    ghost predicate Bounded(open: set<Site>)
      reads objPerc, objFull
      requires length > 0
    {
      && objFull.edges <= objPerc.edges
      && objFull.edges <= FullEdges(length, open)
      && objPerc.edges <= PercEdges(length, open)
    }

    /** every edge of the grid with the given sites open, and every edge in
        `joined`, lies within one component */
    ghost predicate Covering(open: set<Site>, joined: set<Edge>)
      reads objPerc, objFull
      requires length > 0
    {
      && objFull.Covers(FullEdges(length, open)) && objPerc.Covers(PercEdges(length, open))
      && objFull.Covers(joined) && objPerc.Covers(joined)
    }

    /** Marks the blocked site (i, j) open; no union has been made yet */
    method MarkOpen(i: int, j: int) returns (ghost open0: set<Site>)
      requires Valid() && InGrid(length, (i, j)) && !arr[i, j]
      modifies arr
      ensures open0 == old(OpenSites()) && OpenSites() == open0 + {(i, j)}
      ensures Opening(open0, i, j, {})
      ensures forall a, b | 0 <= a <= length && 0 <= b <= length && (a, b) != (i, j) :: arr[a, b] == old(arr[a, b])
    {
      open0 := OpenSites();
      arr[i, j] := true;
      assert OpenSites() == open0 + {(i, j)};
      EdgesGrow(length, open0, OpenSites());
    }

    /** Joins the newly opened site (i, j) to each of its open neighbours */
    method JoinNeighbours(i: int, j: int, ghost open0: set<Site>) returns (ghost joined: set<Edge>)
      requires Opening(open0, i, j, {})
      requires Shaped() && OpenSites() == open0 + {(i, j)}
      modifies objPerc, objFull
      ensures Opening(open0, i, j, joined)
      ensures JoinedAround(length, open0, (i, j), joined)
    {
      ghost var column := JoinColumn(i, j, open0);
      joined := JoinRow(i, j, open0, column);
      JoinedInColumnGrows(length, open0, (i, j), column, joined);
    }

    /** Joins (i, j) to its open neighbours above and below */
    method JoinColumn(i: int, j: int, ghost open0: set<Site>) returns (ghost joined: set<Edge>)
      requires Opening(open0, i, j, {})
      requires Shaped() && OpenSites() == open0 + {(i, j)}
      modifies objPerc, objFull
      ensures Opening(open0, i, j, joined)
      ensures JoinedInColumn(length, open0, (i, j), joined)
    {
      ghost var above := JoinNeighbour(i - 1 > 0, i - 1, j, i, j, open0, {});
      joined := JoinNeighbour(i + 1 < length + 1, i + 1, j, i, j, open0, above);
      if i > 1 {
        JoinedToGrows(length, open0, (i - 1, j), (i, j), above, joined);
      }
      InColumnOf(length, open0, i, j, joined);
    }

    /** Joins (i, j) to its open neighbours to the left and right */
    method JoinRow(i: int, j: int, ghost open0: set<Site>, ghost joined: set<Edge>) returns (ghost joined': set<Edge>)
      requires Opening(open0, i, j, joined)
      requires Shaped() && OpenSites() == open0 + {(i, j)}
      modifies objPerc, objFull
      ensures Opening(open0, i, j, joined') && joined <= joined'
      ensures JoinedInRow(length, open0, (i, j), joined')
    {
      ghost var left := JoinNeighbour(j - 1 > 0, i, j - 1, i, j, open0, joined);
      joined' := JoinNeighbour(j + 1 < length + 1, i, j + 1, i, j, open0, left);
      if j > 1 {
        JoinedToGrows(length, open0, (i, j - 1), (i, j), left, joined');
      }
      InRowOf(length, open0, i, j, joined');
    }

    /** Joins (i, j) to its neighbour (a, b) when `inside`, the bound check
        that (a, b) lies in the grid, holds */
    method JoinNeighbour(inside: bool, a: int, b: int, i: int, j: int, ghost open0: set<Site>, ghost joined: set<Edge>)
      returns (ghost joined': set<Edge>)
      requires Opening(open0, i, j, joined)
      requires Shaped() && OpenSites() == open0 + {(i, j)}
      requires Adjacent((a, b), (i, j)) && (inside <==> InGrid(length, (a, b)))
      modifies objPerc, objFull
      ensures Opening(open0, i, j, joined') && joined <= joined'
      ensures inside ==> JoinedTo(length, open0, (a, b), (i, j), joined')
    {
      joined' := joined;
      if inside {
        joined' := JoinIfOpen(a, b, i, j, open0, joined);
      }
    }

    /** Joins the newly opened site (i, j) to its neighbour (a, b), in both
        structures, when (a, b) is open. */
    method JoinIfOpen(a: int, b: int, i: int, j: int, ghost open0: set<Site>, ghost joined: set<Edge>)
      returns (ghost joined': set<Edge>)
      requires Opening(open0, i, j, joined)
      requires Shaped() && OpenSites() == open0 + {(i, j)}
      requires InGrid(length, (a, b)) && Adjacent((a, b), (i, j))
      modifies objPerc, objFull
      ensures Opening(open0, i, j, joined')
      ensures joined' == if (a, b) in open0 then joined + {(XyTo1D(length, a, b), XyTo1D(length, i, j))} else joined
      ensures JoinedTo(length, open0, (a, b), (i, j), joined')
    {
      joined' := joined;
      if IsOpen(a, b) == Ok(true) {
        NeighbourEdge(length, open0 + {(i, j)}, (a, b), (i, j));
        joined' := UnionBoth(XyTo1D(length, a, b), XyTo1D(length, i, j), open0, i, j, joined);
      }
    }

    /** Joins a newly opened site of the first row to the top node, in both
        structures, unless objFull already connects them. */
    method JoinTop(i: int, j: int, ghost open0: set<Site>, ghost joined: set<Edge>)
      returns (ghost joined': set<Edge>)
      requires Opening(open0, i, j, joined)
      modifies objPerc, objFull
      ensures Opening(open0, i, j, joined') && joined <= joined'
      ensures i == 1 ==> (Top(length), XyTo1D(length, i, j)) in joined'
    {
      joined' := joined;
      if i == 1 {
        var k := XyTo1D(length, i, j);
        XyTo1DInverse(length, i, j);
        assert TopLink(length, open0 + {(i, j)}, Top(length), k);
        if !objFull.Connected(length * length, k) {
          joined' := UnionBoth(length * length, k, open0, i, j, joined);
        } else {
          AlreadyJoined(open0, i, j, joined, length * length, k);
          joined' := joined + {(Top(length), k)};
        }
      }
    }

    /** union(p, q) on objPerc and then on objFull, for an edge (p, q) of the
        full structure's graph */
    method UnionBoth(p: int, q: int, ghost open0: set<Site>, i: int, j: int, ghost joined: set<Edge>)
      returns (ghost joined': set<Edge>)
      requires Opening(open0, i, j, joined)
      requires (p, q) in FullEdges(length, open0 + {(i, j)})
      modifies objPerc, objFull
      ensures joined' == joined + {(p, q)}
      ensures Opening(open0, i, j, joined')
    {
      EdgesGrow(length, open0 + {(i, j)}, open0 + {(i, j)});
      objPerc.Union(p, q);
      objFull.Union(p, q);
      joined' := joined + {(p, q)};
    }

    /** An edge whose ends objFull already connects is within one component of
        objPerc as well, since objPerc received every union objFull did */
    lemma AlreadyJoined(open0: set<Site>, i: int, j: int, joined: set<Edge>, p: int, q: int)
      requires Opening(open0, i, j, joined)
      requires 0 <= p < |objFull.id| && 0 <= q < |objFull.id| && objFull.id[p] == objFull.id[q]
      ensures Opening(open0, i, j, joined + {(p, q)})
    {
      ReachMono(objFull.edges, objPerc.edges, p, q);
    }

    /** Joins a newly opened site of the last row to the bottom node, in objPerc
        only. */
    method JoinBottom(i: int, j: int, ghost open0: set<Site>, ghost joined: set<Edge>)
      requires Opening(open0, i, j, joined)
      modifies objPerc
      ensures Opening(open0, i, j, joined)
      ensures i == length ==> objPerc.Covers({(XyTo1D(length, i, j), Bottom(length))})
    {
      var k := XyTo1D(length, i, j);
      XyTo1DInverse(length, i, j);
      if i == length {
        assert BottomLink(length, open0 + {(i, j)}, k, Bottom(length));
        objPerc.Union(k, length * length + 1);
      }
    }

    /** Once every new edge at (i, j) has been joined, the grid is valid again */
    lemma Opened(open0: set<Site>, i: int, j: int, joined: set<Edge>)
      requires Opening(open0, i, j, joined)
      requires Shaped() && OpenSites() == open0 + {(i, j)}
      requires JoinedAround(length, open0, (i, j), joined)
      requires i == 1 ==> (Top(length), XyTo1D(length, i, j)) in joined
      requires i == length ==> objPerc.Covers({(XyTo1D(length, i, j), Bottom(length))})
      ensures Valid()
    {
      var k := XyTo1D(length, i, j);
      var perc0, full0 := PercEdges(length, open0) + joined, FullEdges(length, open0) + joined;
      forall e | e in PercEdges(length, open0 + {(i, j)})
        ensures 0 <= e.0 < |objPerc.id| && 0 <= e.1 < |objPerc.id| && objPerc.id[e.0] == objPerc.id[e.1]
      {
        OpenedPercEdge(length, open0, (i, j), joined, e);
        if e !in perc0 && (e.1, e.0) !in perc0 {
          assert e in {(k, Bottom(length))};
        }
      }
      forall e | e in FullEdges(length, open0 + {(i, j)})
        ensures 0 <= e.0 < |objFull.id| && 0 <= e.1 < |objFull.id| && objFull.id[e.0] == objFull.id[e.1]
      {
        OpenedFullEdge(length, open0, (i, j), joined, e);
      }
    }

    /** Whether site (i, j) is open */
    function IsOpen(i: int, j: int): (r: Result<bool>)
      reads arr
      requires Shaped()
      ensures r.Err? <==> !InGrid(length, (i, j))
      ensures r.Err? ==> r.error == IndexOutOfBounds
      ensures r.Ok? ==> (r.value <==> (i, j) in OpenSites())
    {
      var _ :- Validate(i);
      var _ :- Validate(j);
      Ok(arr[i, j])
    }

    /** Whether site (i, j) is full: open, and connected to the top node in
        objFull, which is exactly when an open chain leads to it from the top
        row. */
    function IsFull(i: int, j: int): (r: Result<bool>)
      reads arr, objPerc, objFull
      requires Valid()
      ensures r.Err? <==> !InGrid(length, (i, j))
      ensures r.Err? ==> r.error == IndexOutOfBounds
      ensures r.Ok? ==> (r.value <==> FullSite(OpenSites(), (i, j)))
      ensures r.Ok? && r.value ==> (i, j) in OpenSites()
    {
      var _ :- Validate(i);
      var _ :- Validate(j);
      if IsOpen(i, j) != Ok(true) then
        Ok(false)
      else
        FullConnected(i, j);
        Ok(objFull.Connected(length * length, XyTo1D(length, i, j)))
    }

    /** Whether the system percolates: the top and bottom nodes are connected in
        objPerc, which is exactly when an open chain joins the top row to the
        bottom row. */
    function Percolates(): (r: bool)
      reads arr, objPerc, objFull
      requires Valid()
      ensures r <==> Spans(length, OpenSites())
    {
      PercolatesConnected();
      objPerc.Connected(length * length, length * length + 1)
    }

    /** objFull connects site (i, j) to the top node exactly when an open chain
        leads to it from the top row */
    lemma FullConnected(i: int, j: int)
      requires Valid() && InGrid(length, (i, j))
      ensures 0 <= XyTo1D(length, i, j) < length * length
      ensures objFull.id[Top(length)] == objFull.id[XyTo1D(length, i, j)] <==> FullSite(OpenSites(), (i, j))
    {
      XyTo1DInverse(length, i, j);
      objFull.ComponentsOf(FullEdges(length, OpenSites()), Top(length), XyTo1D(length, i, j));
      FullIff(length, OpenSites(), (i, j));
    }

    /** objPerc connects the top and bottom nodes exactly when an open chain
        joins the top row to the bottom row */
    lemma PercolatesConnected()
      requires Valid()
      ensures objPerc.id[Top(length)] == objPerc.id[Bottom(length)] <==> Spans(length, OpenSites())
    {
      objPerc.ComponentsOf(PercEdges(length, OpenSites()), Top(length), Bottom(length));
      SpansIff(length, OpenSites());
    }

    /** Whatever objFull connects, objPerc connects too */
    lemma FullWithinPerc(a: int, b: int)
      requires Valid() && 0 <= a < length * length + 2 && 0 <= b < length * length + 2
      requires objFull.id[a] == objFull.id[b]
      ensures objPerc.id[a] == objPerc.id[b]
    {
      ReachMono(objFull.edges, objPerc.edges, a, b);
    }

    /** The bottom node is never joined to anything in objFull */
    lemma BottomAloneInFull(x: int)
      requires Valid() && 0 <= x < length * length + 2
      ensures objFull.id[Bottom(length)] == objFull.id[x] <==> x == Bottom(length)
    {
      objFull.ComponentsOf(FullEdges(length, OpenSites()), Bottom(length), x);
      BottomIsolated(length, OpenSites(), x);
    }
  }
}
