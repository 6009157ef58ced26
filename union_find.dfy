/** The disjoint-set structure the percolation grid keeps two of. Its own
    source (weighted quick-union by size) is not part of this model, so only
    its observable contract is modelled: every element carries the label of
    its component, `union` merges two components and `connected` compares
    labels. The ghost field `edges` records every union applied so far, and
    the invariant says that two elements share a label exactly when the
    recorded unions connect them. */
module DisjointSets {
  import opened Graph

  /** Relabels every element of component `from` as a member of `to` */
  function Relabel(id: seq<int>, from: int, to: int): (r: seq<int>)
    ensures |r| == |id|
  {
    seq(|id|, k requires 0 <= k < |id| => if id[k] == from then to else id[k])
  }

  /** Merging the components of p and q joins a and b exactly when they were
      already together, or one was with p and the other with q. */
  lemma RelabelMerges(id: seq<int>, p: int, q: int, a: int, b: int)
    requires 0 <= p < |id| && 0 <= q < |id| && 0 <= a < |id| && 0 <= b < |id|
    ensures var r := Relabel(id, id[p], id[q]);
      r[a] == r[b] <==>
        id[a] == id[b] || (id[a] == id[p] && id[b] == id[q]) || (id[a] == id[q] && id[b] == id[p])
  {
  }

  class UnionFind {
    /** component label of every element */
    var id: seq<int>
    /** every union applied so far */
    ghost var edges: set<Edge>

    ghost predicate Valid()
      reads this
    {
      && (forall e | e in edges :: 0 <= e.0 < |id| && 0 <= e.1 < |id|)
      && (forall a, b | 0 <= a < |id| && 0 <= b < |id| :: id[a] == id[b] <==> Reach(edges, a, b))
    }

    /** every edge of E joins two elements of one component */
    ghost predicate Covers(E: set<Edge>)
      reads this
    {
      forall e | e in E :: 0 <= e.0 < |id| && 0 <= e.1 < |id| && id[e.0] == id[e.1]
    }

    /** n singleton components, labelled 0 .. n-1 */
    constructor (n: nat)
      ensures Valid() && |id| == n && edges == {}
      ensures forall a, b | 0 <= a < n && 0 <= b < n :: id[a] == id[b] <==> a == b
    {
      id := seq(n, k => k);
      edges := {};
      new;
      forall a, b | 0 <= a < n && 0 <= b < n
        ensures id[a] == id[b] <==> Reach(edges, a, b)
      {
        ReachEmpty(a, b);
      }
    }

    function Connected(p: int, q: int): (r: bool)
      reads this
      requires Valid() && 0 <= p < |id| && 0 <= q < |id|
      ensures r <==> Reach(edges, p, q)
    {
      id[p] == id[q]
    }

    method Union(p: int, q: int)
      requires Valid() && 0 <= p < |id| && 0 <= q < |id|
      modifies this
      ensures Valid()
      ensures edges == old(edges) + {(p, q)}
      ensures id == Relabel(old(id), old(id[p]), old(id[q]))
      ensures old(id[p] == id[q]) ==> id == old(id)
      ensures id[p] == id[q]
      ensures forall a, b | 0 <= a < |id| && 0 <= b < |id| && old(id[a] == id[b]) :: id[a] == id[b]
    {
      ghost var id0, edges0 := id, edges;
      id := Relabel(id, id[p], id[q]);
      edges := edges + {(p, q)};
      forall a, b | 0 <= a < |id| && 0 <= b < |id|
        ensures id[a] == id[b] <==> Reach(edges, a, b)
      {
        RelabelMerges(id0, p, q, a, b);
        ReachAddEdge(edges0, p, q, a, b);
      }
      if id0[p] == id0[q] {
        assert id == id0;
      }
    }

    /** Once every edge of E is within one component and every union applied
        was an edge of E, the components are exactly those of the graph E. */
    lemma ComponentsOf(E: set<Edge>, a: int, b: int)
      requires Valid() && edges <= E && Covers(E)
      requires 0 <= a < |id| && 0 <= b < |id|
      ensures id[a] == id[b] <==> Reach(E, a, b)
    {
      forall e | e in E
        ensures Reach(edges, e.0, e.1)
      {
      }
      SameReach(edges, E, a, b);
    }
  }
}
