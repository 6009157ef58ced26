/** Undirected reachability over a finite set of edges between integer-labelled
    nodes. A union-find structure answers exactly this question about the
    unions applied to it, and the percolation grid is such a graph. */
module Graph {

  type Edge = (int, int)

  /** a and b are joined by an edge of E, in either orientation */
  ghost predicate Linked(E: set<Edge>, a: int, b: int) {
    (a, b) in E || (b, a) in E
  }

  /** p is a non-empty walk whose consecutive nodes are linked in E */
  ghost predicate IsPath(E: set<Edge>, p: seq<int>) {
    |p| > 0 && forall k :: 0 <= k < |p| - 1 ==> Linked(E, p[k], p[k + 1])
  }

  ghost predicate Reach(E: set<Edge>, a: int, b: int) {
    exists p :: IsPath(E, p) && p[0] == a && p[|p| - 1] == b
  }

  /** What adding the edge (x, y) to E can newly connect */
  ghost predicate ReachVia(E: set<Edge>, x: int, y: int, a: int, b: int) {
    Reach(E, a, b) || (Reach(E, a, x) && Reach(E, y, b)) || (Reach(E, a, y) && Reach(E, x, b))
  }

  lemma ReachRefl(E: set<Edge>, a: int)
    ensures Reach(E, a, a)
  {
    assert IsPath(E, [a]);
  }

  lemma ReachLink(E: set<Edge>, a: int, b: int)
    requires Linked(E, a, b)
    ensures Reach(E, a, b)
  {
    assert IsPath(E, [a, b]);
  }

  lemma ReachTrans(E: set<Edge>, a: int, b: int, c: int)
    requires Reach(E, a, b) && Reach(E, b, c)
    ensures Reach(E, a, c)
  {
    var p :| IsPath(E, p) && p[0] == a && p[|p| - 1] == b;
    var q :| IsPath(E, q) && q[0] == b && q[|q| - 1] == c;
    var r := p + q[1..];
    forall k | 0 <= k < |r| - 1
      ensures Linked(E, r[k], r[k + 1])
    {
      if k < |p| - 1 {
        assert r[k] == p[k] && r[k + 1] == p[k + 1];
      } else {
        assert r[k] == q[k - |p| + 1] && r[k + 1] == q[k - |p| + 2];
      }
    }
    assert IsPath(E, r) && r[0] == a && r[|r| - 1] == c;
  }

  lemma ReachSym(E: set<Edge>, a: int, b: int)
    requires Reach(E, a, b)
    ensures Reach(E, b, a)
  {
    var p :| IsPath(E, p) && p[0] == a && p[|p| - 1] == b;
    var r := seq(|p|, k requires 0 <= k < |p| => p[|p| - 1 - k]);
    forall k | 0 <= k < |r| - 1
      ensures Linked(E, r[k], r[k + 1])
    {
      assert Linked(E, p[|p| - 2 - k], p[|p| - 1 - k]);
    }
    assert IsPath(E, r) && r[0] == b && r[|r| - 1] == a;
  }

  /** Adding edges never disconnects anything */
  lemma ReachMono(E1: set<Edge>, E2: set<Edge>, a: int, b: int)
    requires E1 <= E2 && Reach(E1, a, b)
    ensures Reach(E2, a, b)
  {
    var p :| IsPath(E1, p) && p[0] == a && p[|p| - 1] == b;
    assert IsPath(E2, p);
  }

  /** Without edges every node reaches only itself */
  lemma ReachEmpty(a: int, b: int)
    ensures Reach({}, a, b) <==> a == b
  {
    if Reach({}, a, b) {
      var p :| IsPath({}, p) && p[0] == a && p[|p| - 1] == b;
      assert |p| > 1 ==> Linked({}, p[0], p[1]);
    } else {
      ReachRefl({}, a);
    }
  }

  lemma {:induction false} PathAddEdge(E: set<Edge>, x: int, y: int, p: seq<int>)
    requires IsPath(E + {(x, y)}, p)
    ensures ReachVia(E, x, y, p[0], p[|p| - 1])
    decreases |p|
  {
    var b := p[|p| - 1];
    if |p| == 1 {
      ReachRefl(E, b);
    } else {
      var a, c := p[0], p[1];
      PathAddEdge(E, x, y, p[1..]);
      assert ReachVia(E, x, y, c, b);
      if Linked(E, a, c) {
        ReachLink(E, a, c);
        if Reach(E, c, b) {
          ReachTrans(E, a, c, b);
        } else if Reach(E, c, x) && Reach(E, y, b) {
          ReachTrans(E, a, c, x);
        } else {
          ReachTrans(E, a, c, y);
        }
      } else {
        // the first step is the new edge itself, in one of its orientations
        assert (a == x && c == y) || (a == y && c == x);
        ReachRefl(E, a);
      }
    }
  }

  /** Adding the edge (x, y) connects a and b exactly when they were already
      connected, or a reaches one end of the new edge and b the other end. */
  lemma ReachAddEdge(E: set<Edge>, x: int, y: int, a: int, b: int)
    ensures Reach(E + {(x, y)}, a, b) <==> ReachVia(E, x, y, a, b)
  {
    var E' := E + {(x, y)};
    if Reach(E', a, b) {
      var p :| IsPath(E', p) && p[0] == a && p[|p| - 1] == b;
      PathAddEdge(E, x, y, p);
    }
    if ReachVia(E, x, y, a, b) {
      ReachLink(E', x, y);
      ReachLink(E', y, x);
      if Reach(E, a, b) {
        ReachMono(E, E', a, b);
      } else if Reach(E, a, x) && Reach(E, y, b) {
        ReachMono(E, E', a, x);
        ReachMono(E, E', y, b);
        ReachTrans(E', a, x, y);
        ReachTrans(E', a, y, b);
      } else {
        ReachMono(E, E', a, y);
        ReachMono(E, E', x, b);
        ReachTrans(E', a, y, x);
        ReachTrans(E', a, x, b);
      }
    }
  }

  lemma {:induction false} PathWithin(E1: set<Edge>, E2: set<Edge>, p: seq<int>)
    requires forall e :: e in E2 ==> Reach(E1, e.0, e.1)
    requires IsPath(E2, p)
    ensures Reach(E1, p[0], p[|p| - 1])
    decreases |p|
  {
    if |p| == 1 {
      ReachRefl(E1, p[0]);
    } else {
      PathWithin(E1, E2, p[1..]);
      if (p[0], p[1]) in E2 {
        assert Reach(E1, (p[0], p[1]).0, (p[0], p[1]).1);
      } else {
        assert Reach(E1, (p[1], p[0]).0, (p[1], p[0]).1);
        ReachSym(E1, p[1], p[0]);
      }
      ReachTrans(E1, p[0], p[1], p[|p| - 1]);
    }
  }

  /** A subset of the edges that already connects the ends of every edge has
      the same connected components as the whole set. */
  lemma SameReach(E1: set<Edge>, E2: set<Edge>, a: int, b: int)
    requires E1 <= E2
    requires forall e :: e in E2 ==> Reach(E1, e.0, e.1)
    ensures Reach(E1, a, b) <==> Reach(E2, a, b)
  {
    if Reach(E1, a, b) {
      ReachMono(E1, E2, a, b);
    }
    if Reach(E2, a, b) {
      var p :| IsPath(E2, p) && p[0] == a && p[|p| - 1] == b;
      PathWithin(E1, E2, p);
    }
  }
}
