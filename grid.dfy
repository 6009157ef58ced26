/** The N-by-N grid of sites as a graph. Sites are addressed by (row, column),
    both in 1..N; the union-find structures address them by a row-major flat
    index in 0..N*N-1, and use N*N for the virtual top node and N*N+1 for the
    virtual bottom node. This module defines that addressing, the edges the
    two structures are meant to hold for a given set of open sites, and what
    "full" and "percolates" mean directly on the grid, and proves the two
    views agree. */
module Grid {
  import opened Graph

  /** (row, column) */
  type Site = (int, int)

  predicate InGrid(n: int, s: Site) {
    1 <= s.0 <= n && 1 <= s.1 <= n
  }

  ghost predicate WithinGrid(n: int, open: set<Site>) {
    forall s | s in open :: InGrid(n, s)
  }

  /** s and t are 4-neighbours: they differ by one in exactly one coordinate */
  predicate Adjacent(s: Site, t: Site) {
    || (s.0 == t.0 && (s.1 == t.1 + 1 || t.1 == s.1 + 1))
    || (s.1 == t.1 && (s.0 == t.0 + 1 || t.0 == s.0 + 1))
  }

  // ---------------------------------------------------------------------------
  // Addressing

  /** The flat index of site (i, j) in an n-by-n grid */
  function XyTo1D(n: int, i: int, j: int): int {
    (i - 1) * n + (j - 1)
  }

  /** The site a flat index stands for: the inverse of XyTo1D */
  function SiteOf(n: int, k: int): Site
    requires n > 0
  {
    (k / n + 1, k % n + 1)
  }

  function Top(n: int): int { n * n }

  function Bottom(n: int): int { n * n + 1 }

  /** the flat indices of grid sites */
  ghost predicate IsSiteNode(n: int, k: int) {
    0 <= k < n * n
  }

  lemma MulAtLeast(e: int, n: int)
    requires n > 0
    ensures e >= 1 ==> e * n >= n
    ensures e <= -1 ==> e * n <= -n
  {
    assert e >= 1 ==> (e - 1) * n >= 0;
    assert e <= -1 ==> (-e - 1) * n >= 0;
  }

  lemma DivModOf(n: int, a: int, b: int)
    requires n > 0 && 0 <= b < n
    ensures (a * n + b) / n == a && (a * n + b) % n == b
  {
    var k := a * n + b;
    var d, m := k / n, k % n;
    assert k == d * n + m;
    assert (a - d) * n == m - b;
    MulAtLeast(a - d, n);
  }

  /** XyTo1D maps the grid into 0..n*n-1, below both virtual nodes, and SiteOf
      recovers the site from its index. */
  lemma XyTo1DInverse(n: int, i: int, j: int)
    requires InGrid(n, (i, j))
    ensures IsSiteNode(n, XyTo1D(n, i, j))
    ensures SiteOf(n, XyTo1D(n, i, j)) == (i, j)
  {
    MulAtLeast(n - i, n);
    assert (n - 1) * n == n * n - n;
    assert (n - i) * n == (n - 1) * n - (i - 1) * n;
    MulAtLeast(i - 1, n);
    DivModOf(n, i - 1, j - 1);
  }

  /** Every index in 0..n*n-1 is the index of exactly one grid site */
  lemma SiteOfInverse(n: int, k: int)
    requires n > 0 && IsSiteNode(n, k)
    ensures InGrid(n, SiteOf(n, k))
    ensures XyTo1D(n, SiteOf(n, k).0, SiteOf(n, k).1) == k
  {
    var d, m := k / n, k % n;
    assert k == d * n + m;
    assert d >= n ==> d * n >= n * n;
  }

  lemma XyTo1DInjective(n: int, s: Site, t: Site)
    requires InGrid(n, s) && InGrid(n, t)
    requires XyTo1D(n, s.0, s.1) == XyTo1D(n, t.0, t.1)
    ensures s == t
  {
    XyTo1DInverse(n, s.0, s.1);
    XyTo1DInverse(n, t.0, t.1);
  }

  // ---------------------------------------------------------------------------
  // The edges each union-find structure is meant to hold

  /** two open neighbouring sites */
  ghost predicate SiteLink(n: int, open: set<Site>, a: int, b: int)
    requires n > 0
  {
    && IsSiteNode(n, a) && IsSiteNode(n, b)
    && SiteOf(n, a) in open && SiteOf(n, b) in open
    && Adjacent(SiteOf(n, a), SiteOf(n, b))
  }

  /** the top node and an open site of the first row */
  ghost predicate TopLink(n: int, open: set<Site>, a: int, b: int)
    requires n > 0
  {
    a == Top(n) && IsSiteNode(n, b) && SiteOf(n, b) in open && SiteOf(n, b).0 == 1
  }

  /** an open site of the last row and the bottom node */
  ghost predicate BottomLink(n: int, open: set<Site>, a: int, b: int)
    requires n > 0
  {
    b == Bottom(n) && IsSiteNode(n, a) && SiteOf(n, a) in open && SiteOf(n, a).0 == n
  }

  /** The edges of the structure that answers "is this site full": no edge
      touches the bottom node. */
  ghost function FullEdges(n: int, open: set<Site>): set<Edge>
    requires n > 0
  {
    set a, b | 0 <= a < n * n + 2 && 0 <= b < n * n + 2 && (SiteLink(n, open, a, b) || TopLink(n, open, a, b)) :: (a, b)
  }

  /** The edges of the structure that answers "does the system percolate" */
  ghost function PercEdges(n: int, open: set<Site>): set<Edge>
    requires n > 0
  {
    FullEdges(n, open) + set a, b | 0 <= a < n * n + 2 && 0 <= b < n * n + 2 && BottomLink(n, open, a, b) :: (a, b)
  }

  // ---------------------------------------------------------------------------
  // Full sites and percolation, stated on the grid itself

  /** q is a non-empty chain of open sites, each a 4-neighbour of the next */
  ghost predicate OpenPath(open: set<Site>, q: seq<Site>) {
    && |q| > 0
    && (forall k :: 0 <= k < |q| ==> q[k] in open)
    && (forall k :: 0 <= k < |q| - 1 ==> Adjacent(q[k], q[k + 1]))
  }

  /** s is full: an open chain leads to it from an open site of the top row */
  ghost predicate FullSite(open: set<Site>, s: Site) {
    exists q: seq<Site> :: OpenPath(open, q) && q[0].0 == 1 && q[|q| - 1] == s
  }

  /** the system percolates: an open chain joins the top row to the bottom row */
  ghost predicate Spans(n: int, open: set<Site>) {
    exists q: seq<Site> :: OpenPath(open, q) && q[0].0 == 1 && q[|q| - 1].0 == n
  }

  /** the flat indices of the sites of q, in order */
  function Nodes(n: int, q: seq<Site>): (r: seq<int>)
    ensures |r| == |q|
  {
    seq(|q|, k requires 0 <= k < |q| => XyTo1D(n, q[k].0, q[k].1))
  }

  // ---------------------------------------------------------------------------
  // From node paths to open chains and back

  /** x is where a node path continues an open chain q from the top row;
      an empty q means the path is at the top node itself */
  ghost predicate ContinuesFromTop(n: int, open: set<Site>, q: seq<Site>, x: int)
    requires n > 0
  {
    if q == [] then x == Top(n)
    else OpenPath(open, q) && q[0].0 == 1 && IsSiteNode(n, x) && SiteOf(n, x) == q[|q| - 1]
  }

  /** One step of a node path that does not end at the bottom node, taken from
      where an open chain from the top row has arrived */
  lemma StepFromTop(n: int, open: set<Site>, E: set<Edge>, q: seq<Site>, x: int, y: int) returns (q': seq<Site>)
    requires n > 0
    requires E == FullEdges(n, open) || E == PercEdges(n, open)
    requires ContinuesFromTop(n, open, q, x) && Linked(E, x, y) && y != Bottom(n)
    ensures ContinuesFromTop(n, open, q', y)
  {
    if y == Top(n) {
      q' := [];
    } else {
      var t := SiteOf(n, y);
      if q == [] {
        assert TopLink(n, open, x, y);
        q' := [t];
      } else {
        if (y, x) in E {
          assert SiteLink(n, open, y, x);
        }
        q' := q + [t];
        assert OpenPath(open, q') by {
          forall k | 0 <= k < |q'| - 1
            ensures Adjacent(q'[k], q'[k + 1])
          {
            if k < |q| - 1 {
              assert q'[k] == q[k] && q'[k + 1] == q[k + 1];
            }
          }
        }
      }
    }
  }

  lemma {:induction false} FullFromPath(n: int, open: set<Site>, q: seq<Site>, p: seq<int>)
    requires n > 0
    requires IsPath(FullEdges(n, open), p) && ContinuesFromTop(n, open, q, p[0])
    requires IsSiteNode(n, p[|p| - 1])
    ensures FullSite(open, SiteOf(n, p[|p| - 1]))
    decreases |p|
  {
    if |p| == 1 {
      assert q != [] && OpenPath(open, q) && q[0].0 == 1 && q[|q| - 1] == SiteOf(n, p[0]);
    } else {
      assert Linked(FullEdges(n, open), p[0], p[1]);
      var q' := StepFromTop(n, open, FullEdges(n, open), q, p[0], p[1]);
      FullFromPath(n, open, q', p[1..]);
    }
  }

  lemma {:induction false} SpansFromPath(n: int, open: set<Site>, q: seq<Site>, p: seq<int>)
    requires n > 0
    requires IsPath(PercEdges(n, open), p) && ContinuesFromTop(n, open, q, p[0])
    requires p[|p| - 1] == Bottom(n)
    ensures Spans(n, open)
    decreases |p|
  {
    assert p[0] != Bottom(n);
    var x, y := p[0], p[1];
    assert Linked(PercEdges(n, open), x, y);
    if y == Bottom(n) {
      // the only edges at the bottom node come from open sites of the last row
      assert BottomLink(n, open, x, y);
      assert OpenPath(open, q) && q[0].0 == 1 && q[|q| - 1].0 == n;
    } else {
      var q' := StepFromTop(n, open, PercEdges(n, open), q, x, y);
      SpansFromPath(n, open, q', p[1..]);
    }
  }

  /** An open chain from the top row is a path of the full structure's graph
      that starts at the top node */
  lemma ChainIsPath(n: int, open: set<Site>, q: seq<Site>)
    requires n > 0 && WithinGrid(n, open)
    requires OpenPath(open, q) && q[0].0 == 1
    ensures IsPath(FullEdges(n, open), [Top(n)] + Nodes(n, q))
  {
    var p := [Top(n)] + Nodes(n, q);
    forall k | 0 <= k < |p| - 1
      ensures Linked(FullEdges(n, open), p[k], p[k + 1])
    {
      XyTo1DInverse(n, q[k].0, q[k].1);
      if k == 0 {
        assert TopLink(n, open, p[0], p[1]);
      } else {
        XyTo1DInverse(n, q[k - 1].0, q[k - 1].1);
        assert SiteLink(n, open, p[k], p[k + 1]);
      }
    }
  }

  /** A site is connected to the top node by the full structure's edges
      exactly when an open chain leads to it from the top row. */
  lemma FullIff(n: int, open: set<Site>, s: Site)
    requires n > 0 && WithinGrid(n, open) && InGrid(n, s)
    ensures Reach(FullEdges(n, open), Top(n), XyTo1D(n, s.0, s.1)) <==> FullSite(open, s)
  {
    var E := FullEdges(n, open);
    var k := XyTo1D(n, s.0, s.1);
    XyTo1DInverse(n, s.0, s.1);
    if Reach(E, Top(n), k) {
      var p :| IsPath(E, p) && p[0] == Top(n) && p[|p| - 1] == k;
      FullFromPath(n, open, [], p);
    }
    if FullSite(open, s) {
      var q: seq<Site> :| OpenPath(open, q) && q[0].0 == 1 && q[|q| - 1] == s;
      ChainIsPath(n, open, q);
      var p := [Top(n)] + Nodes(n, q);
      assert p[|p| - 1] == k;
    }
  }

  /** The top and bottom nodes are connected by the percolation structure's
      edges exactly when an open chain joins the top row to the bottom row. */
  lemma SpansIff(n: int, open: set<Site>)
    requires n > 0 && WithinGrid(n, open)
    ensures Reach(PercEdges(n, open), Top(n), Bottom(n)) <==> Spans(n, open)
  {
    var E := PercEdges(n, open);
    if Reach(E, Top(n), Bottom(n)) {
      var p :| IsPath(E, p) && p[0] == Top(n) && p[|p| - 1] == Bottom(n);
      SpansFromPath(n, open, [], p);
    }
    if Spans(n, open) {
      var q: seq<Site> :| OpenPath(open, q) && q[0].0 == 1 && q[|q| - 1].0 == n;
      var last := q[|q| - 1];
      var k := XyTo1D(n, last.0, last.1);
      ChainIsPath(n, open, q);
      var p := [Top(n)] + Nodes(n, q);
      assert p[|p| - 1] == k;
      ReachMono(FullEdges(n, open), E, Top(n), k);
      XyTo1DInverse(n, last.0, last.1);
      assert BottomLink(n, open, k, Bottom(n));
      ReachLink(E, k, Bottom(n));
      ReachTrans(E, Top(n), k, Bottom(n));
    }
  }

  /** No edge of the full structure touches the bottom node, so there it is
      connected to nothing but itself: this is what rules out backwash. */
  lemma BottomIsolated(n: int, open: set<Site>, x: int)
    requires n > 0
    ensures Reach(FullEdges(n, open), Bottom(n), x) <==> x == Bottom(n)
  {
    var E := FullEdges(n, open);
    if Reach(E, Bottom(n), x) {
      var p :| IsPath(E, p) && p[0] == Bottom(n) && p[|p| - 1] == x;
      assert |p| > 1 ==> Linked(E, p[0], p[1]);
    } else {
      ReachRefl(E, x);
    }
  }

  /** Opening more sites only adds edges */
  lemma EdgesGrow(n: int, open0: set<Site>, open1: set<Site>)
    requires n > 0 && open0 <= open1
    ensures FullEdges(n, open0) <= FullEdges(n, open1)
    ensures PercEdges(n, open0) <= PercEdges(n, open1)
    ensures FullEdges(n, open1) <= PercEdges(n, open1)
  {
  }

  /** e joins the flat index of s to the flat index of an open neighbour of s,
      in either orientation */
  ghost predicate NeighbourTouch(n: int, open: set<Site>, s: Site, e: Edge) {
    var k := XyTo1D(n, s.0, s.1);
    && IsSiteNode(n, e.0) && IsSiteNode(n, e.1)
    && exists t :: t in open && Adjacent(s, t) && (e == (XyTo1D(n, t.0, t.1), k) || e == (k, XyTo1D(n, t.0, t.1)))
  }

  /** e joins the flat index of s to an open neighbour of s, or to the top
      node when s is in the first row, or to the bottom node when s is in the
      last row */
  ghost predicate Touches(n: int, open: set<Site>, s: Site, e: Edge) {
    var k := XyTo1D(n, s.0, s.1);
    || NeighbourTouch(n, open, s, e)
    || (s.0 == 1 && e == (Top(n), k))
    || (s.0 == n && e == (k, Bottom(n)))
  }

  /** The only edges that opening the blocked site s adds are those that
      touch s; the full structure gains none at the bottom node. */
  lemma OpenedEdges(n: int, open: set<Site>, s: Site, e: Edge)
    requires n > 0 && WithinGrid(n, open) && InGrid(n, s)
    requires e in PercEdges(n, open + {s})
    ensures e in PercEdges(n, open) || Touches(n, open, s, e)
    ensures e in FullEdges(n, open + {s}) ==>
      e in FullEdges(n, open) || (Touches(n, open, s, e) && e.1 != Bottom(n))
  {
    var (a, b) := e;
    var open1 := open + {s};
    var k := XyTo1D(n, s.0, s.1);
    XyTo1DInverse(n, s.0, s.1);
    if IsSiteNode(n, a) {
      SiteOfInverse(n, a);
    }
    if IsSiteNode(n, b) {
      SiteOfInverse(n, b);
    }
    if SiteLink(n, open1, a, b) && !SiteLink(n, open, a, b) {
      if SiteOf(n, a) == s {
        assert a == k;
        var t := SiteOf(n, b);
        assert t in open && Adjacent(s, t) && e == (k, XyTo1D(n, t.0, t.1));
      } else {
        assert b == k;
        var t := SiteOf(n, a);
        assert t in open && Adjacent(s, t) && e == (XyTo1D(n, t.0, t.1), k);
      }
    }
    if TopLink(n, open1, a, b) && !TopLink(n, open, a, b) {
      assert b == k;
    }
    if BottomLink(n, open1, a, b) && !BottomLink(n, open, a, b) {
      assert a == k;
    }
  }

  /** if t is open, it is joined to s by the edge (t, s) of `joined` */
  ghost predicate JoinedTo(n: int, open: set<Site>, t: Site, s: Site, joined: set<Edge>) {
    t in open ==> (XyTo1D(n, t.0, t.1), XyTo1D(n, s.0, s.1)) in joined
  }

  /** The open neighbours of s above and below it are joined to s */
  ghost predicate JoinedInColumn(n: int, open: set<Site>, s: Site, joined: set<Edge>) {
    && (s.0 > 1 ==> JoinedTo(n, open, (s.0 - 1, s.1), s, joined))
    && (s.0 < n ==> JoinedTo(n, open, (s.0 + 1, s.1), s, joined))
  }

  /** The same for the open neighbours to the left and right of s */
  ghost predicate JoinedInRow(n: int, open: set<Site>, s: Site, joined: set<Edge>) {
    && (s.1 > 1 ==> JoinedTo(n, open, (s.0, s.1 - 1), s, joined))
    && (s.1 < n ==> JoinedTo(n, open, (s.0, s.1 + 1), s, joined))
  }

  /** Every open neighbour of s is joined to s by an edge of `joined` */
  ghost predicate JoinedAround(n: int, open: set<Site>, s: Site, joined: set<Edge>) {
    JoinedInColumn(n, open, s, joined) && JoinedInRow(n, open, s, joined)
  }

  lemma JoinedToGrows(n: int, open: set<Site>, t: Site, s: Site, joined: set<Edge>, joined': set<Edge>)
    requires JoinedTo(n, open, t, s, joined) && joined <= joined'
    ensures JoinedTo(n, open, t, s, joined')
  {
  }

  lemma InColumnOf(n: int, open: set<Site>, i: int, j: int, joined: set<Edge>)
    requires i > 1 ==> JoinedTo(n, open, (i - 1, j), (i, j), joined)
    requires i < n ==> JoinedTo(n, open, (i + 1, j), (i, j), joined)
    ensures JoinedInColumn(n, open, (i, j), joined)
  {
  }

  lemma InRowOf(n: int, open: set<Site>, i: int, j: int, joined: set<Edge>)
    requires j > 1 ==> JoinedTo(n, open, (i, j - 1), (i, j), joined)
    requires j < n ==> JoinedTo(n, open, (i, j + 1), (i, j), joined)
    ensures JoinedInRow(n, open, (i, j), joined)
  {
  }

  lemma JoinedInColumnGrows(n: int, open: set<Site>, s: Site, joined: set<Edge>, joined': set<Edge>)
    requires JoinedInColumn(n, open, s, joined) && joined <= joined'
    ensures JoinedInColumn(n, open, s, joined')
  {
  }

  lemma JoinedAroundGrows(n: int, open: set<Site>, s: Site, joined: set<Edge>, joined': set<Edge>)
    requires JoinedAround(n, open, s, joined) && joined <= joined'
    ensures JoinedAround(n, open, s, joined')
  {
  }

  /** Two open neighbouring sites give an edge of the full structure's graph */
  lemma NeighbourEdge(n: int, open: set<Site>, t: Site, s: Site)
    requires InGrid(n, t) && InGrid(n, s) && Adjacent(t, s) && t in open && s in open
    ensures (XyTo1D(n, t.0, t.1), XyTo1D(n, s.0, s.1)) in FullEdges(n, open)
  {
    XyTo1DInverse(n, t.0, t.1);
    XyTo1DInverse(n, s.0, s.1);
    assert SiteLink(n, open, XyTo1D(n, t.0, t.1), XyTo1D(n, s.0, s.1));
  }

  /** An open site of the last row gives an edge to the bottom node in the
      percolation structure's graph */
  lemma BottomEdge(n: int, open: set<Site>, s: Site)
    requires InGrid(n, s) && s in open && s.0 == n
    ensures (XyTo1D(n, s.0, s.1), Bottom(n)) in PercEdges(n, open)
  {
    XyTo1DInverse(n, s.0, s.1);
    assert BottomLink(n, open, XyTo1D(n, s.0, s.1), Bottom(n));
  }

  /** Backwash in general: once the system percolates, every open site of the
      last row reaches the top node in the percolation structure's graph,
      through the bottom node, whether or not it is full */
  lemma ReachThroughBottom(n: int, open: set<Site>, s: Site)
    requires n > 0 && WithinGrid(n, open) && Spans(n, open)
    requires InGrid(n, s) && s in open && s.0 == n
    ensures Reach(PercEdges(n, open), Top(n), XyTo1D(n, s.0, s.1))
  {
    var E := PercEdges(n, open);
    SpansIff(n, open);
    BottomEdge(n, open, s);
    ReachLink(E, Bottom(n), XyTo1D(n, s.0, s.1));
    ReachTrans(E, Top(n), Bottom(n), XyTo1D(n, s.0, s.1));
  }

  /** An edge between s and an open neighbour is in `joined`, in one
      orientation or the other, once every open neighbour is joined to s */
  lemma NeighbourJoined(n: int, open: set<Site>, s: Site, joined: set<Edge>, e: Edge)
    requires WithinGrid(n, open) && JoinedAround(n, open, s, joined)
    requires NeighbourTouch(n, open, s, e)
    ensures e in joined || (e.1, e.0) in joined
  {
    var k := XyTo1D(n, s.0, s.1);
    var t :| t in open && Adjacent(s, t) && (e == (XyTo1D(n, t.0, t.1), k) || e == (k, XyTo1D(n, t.0, t.1)));
    assert (XyTo1D(n, t.0, t.1), k) in joined;
  }

  /** Once opening s has joined its open neighbours and, in the first row, the
      top node, every edge of the percolation structure's new graph is an old
      edge or a joined one, in one orientation or the other, or else the edge
      from s to the bottom node */
  lemma OpenedPercEdge(n: int, open: set<Site>, s: Site, joined: set<Edge>, e: Edge)
    requires n > 0 && WithinGrid(n, open) && InGrid(n, s)
    requires JoinedAround(n, open, s, joined)
    requires s.0 == 1 ==> (Top(n), XyTo1D(n, s.0, s.1)) in joined
    requires e in PercEdges(n, open + {s})
    ensures || e in PercEdges(n, open) + joined
            || (e.1, e.0) in PercEdges(n, open) + joined
            || (s.0 == n && e == (XyTo1D(n, s.0, s.1), Bottom(n)))
  {
    OpenedEdges(n, open, s, e);
    if NeighbourTouch(n, open, s, e) {
      NeighbourJoined(n, open, s, joined, e);
    }
  }

  /** The same for the full structure, which gains no edge at the bottom node */
  lemma OpenedFullEdge(n: int, open: set<Site>, s: Site, joined: set<Edge>, e: Edge)
    requires n > 0 && WithinGrid(n, open) && InGrid(n, s)
    requires JoinedAround(n, open, s, joined)
    requires s.0 == 1 ==> (Top(n), XyTo1D(n, s.0, s.1)) in joined
    requires e in FullEdges(n, open + {s})
    ensures e in FullEdges(n, open) + joined || (e.1, e.0) in FullEdges(n, open) + joined
  {
    EdgesGrow(n, open + {s}, open + {s});
    OpenedEdges(n, open, s, e);
    if NeighbourTouch(n, open, s, e) {
      NeighbourJoined(n, open, s, joined, e);
    }
  }

  /** The open sites of a 3-by-3 grid that percolates down its first column,
      with site (3, 3) also open */
  function BackwashGrid(): set<Site> {
    {(1, 1), (2, 1), (3, 1), (3, 3)}
  }

  /** Why the full structure must not hold the bottom node: the example grid
      percolates, and site (3, 3) reaches the top node through the bottom node
      in the percolation structure's graph, yet it is not full. */
  lemma BackwashExample()
    ensures Spans(3, BackwashGrid())
    ensures Reach(PercEdges(3, BackwashGrid()), Top(3), XyTo1D(3, 3, 3))
    ensures !FullSite(BackwashGrid(), (3, 3))
  {
    assert OpenPath(BackwashGrid(), [(1, 1), (2, 1), (3, 1)]);
    BackwashReach();
    BackwashNotFull();
  }

  lemma BackwashReach()
    ensures Reach(PercEdges(3, BackwashGrid()), Top(3), XyTo1D(3, 3, 3))
  {
    assert OpenPath(BackwashGrid(), [(1, 1), (2, 1), (3, 1)]);
    ReachThroughBottom(3, BackwashGrid(), (3, 3));
  }

  lemma BackwashNotFull()
    ensures !FullSite(BackwashGrid(), (3, 3))
  {
    var open := BackwashGrid();
    forall q: seq<Site> | OpenPath(open, q) && q[|q| - 1] == (3, 3)
      ensures q[0].0 != 1
    {
      // neither neighbour of (3, 3) is open, so the chain is (3, 3) alone
      assert |q| > 1 ==> q[|q| - 2] in open && Adjacent(q[|q| - 2], (3, 3));
    }
  }
}
