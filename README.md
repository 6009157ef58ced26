# Percolation grid, modelled in Dafny

A model of the percolation grid of `Percolation.java`. It is an N-by-N grid of
sites, each blocked or open. Sites are opened one at a time. On every opening
the grid keeps two union-find structures up to date, each over N*N + 2 elements:

- `objPerc` holds the sites, a virtual top node (N*N) and a virtual bottom
  node (N*N + 1). It answers "does the system percolate".
- `objFull` holds the sites and the top node, but the bottom node is never
  joined in it. It answers "is this site full".

Full and percolating are defined on the grid itself, with no union-find:

- A site is full when a chain of open 4-neighbours leads to it from an open
  site of the top row (`Grid.FullSite`).
- The system percolates when such a chain joins the top row to the bottom
  row (`Grid.Spans`).

The model proves that the answers of the two structures agree with these
definitions after any sequence of openings. It also proves that skipping the
bottom-node union in `objFull` is what keeps "full" right once the system
percolates (backwash).

Modules:

- `Graph` (graph.dfy): undirected reachability over a finite set of edges.
- `DisjointSets` (union_find.dfy): a union-find class. It carries a component
  label per element and, as ghost state, the set of unions applied so far. Its
  invariant is that two elements share a label exactly when those unions
  connect them.
- `Grid` (grid.dfy): the row-major addressing `XyTo1D` and its inverse. It
  also holds the edge sets each structure is meant to hold for a given set of
  open sites (`FullEdges`, `PercEdges`), the grid-level definitions of full
  and percolating, and the lemmas that translate between node paths and open
  chains.
- `PercolationModel` (percolation.dfy): the class `Percolation`. Its fields
  are `length`, `arr` (an `array2<bool>`, row 0 and column 0 unused as in the
  source), `objPerc` and `objFull`. `open` is a method; it is split into one
  step method per group of unions in the source, in the source's order. The
  class invariant `Valid` has three parts:
  - every union made is an edge of the grid,
  - `objFull`'s unions are a subset of `objPerc`'s,
  - every grid edge between open sites, or between an open top-row site and
    the top node (and, in `objPerc`, an open bottom-row site and the bottom
    node), lies within one component.
- `Scenarios` (scenarios.dfy): small clients that open sites on a fresh grid.
  Their postconditions state what the queries answer, including the backwash
  grid.

The exceptions of the source are the values of a `Result` datatype, and a
failing call leaves the grid untouched. The doc comment of the constructor
says it connects the virtual top and bottom nodes to their rows. The code
does not do this; those unions happen in `open`, when a first-row or last-row
site is opened. The model follows the code.

## Model

| member | source | states |
|---|---|---|
| PercolationModel.Create | Percolation.java:42-56 | fails with IllegalArgument exactly when N <= 0; otherwise returns a fresh valid N-by-N grid in which no site is open and which does not percolate |
| PercolationModel.Percolation.constructor | Percolation.java:48-55 | both structures have N*N+2 elements, every site 1..N x 1..N is blocked, and the grid invariant holds |
| PercolationModel.Percolation.Validate | Percolation.java:202-208 | succeeds exactly when 1 <= p <= N, and otherwise fails with IndexOutOfBounds |
| PercolationModel.Percolation.Open | Percolation.java:69-124 | fails with IndexOutOfBounds exactly when (i, j) is outside the grid; a failure, or opening an open site, changes neither arr nor either structure; otherwise the open sites become the old ones plus (i, j), no other cell changes, and the invariant is kept |
| PercolationModel.Percolation.OpenBlocked | Percolation.java:79-123 | opening a blocked site adds exactly that site to the open sites, changes no other cell, and restores the invariant |
| PercolationModel.Percolation.MarkOpen | Percolation.java:79 | sets only arr[i, j], so the open sites grow by (i, j) alone, before any union is made |
| PercolationModel.Percolation.JoinAll | Percolation.java:81-123 | the unions made after marking (i, j) open restore the grid invariant for the new open sites |
| PercolationModel.Percolation.JoinNeighbours | Percolation.java:81-110 | afterwards each open neighbour of (i, j) is joined to it, in both structures |
| PercolationModel.Percolation.JoinColumn | Percolation.java:81-94 | the open neighbours (i-1, j) and (i+1, j) that exist are joined to (i, j) |
| PercolationModel.Percolation.JoinRow | Percolation.java:97-110 | the open neighbours (i, j-1) and (i, j+1) that exist are joined to (i, j) |
| PercolationModel.Percolation.JoinNeighbour | Percolation.java:81-86 | when the bound check holds, the neighbour is joined to (i, j) if it is open |
| PercolationModel.Percolation.JoinIfOpen | Percolation.java:82-85 | unions the neighbour with (i, j) in both structures exactly when the neighbour was open, and records exactly that edge |
| PercolationModel.Percolation.UnionBoth | Percolation.java:83-84 | union in objPerc and then in objFull of a grid edge keeps both structures valid and objFull's unions within objPerc's |
| PercolationModel.Percolation.JoinTop | Percolation.java:114-117 | a first-row site ends up joined to the top node in both structures, whether or not objFull already connected them |
| PercolationModel.Percolation.AlreadyJoined | Percolation.java:114 | when objFull already connects the two nodes, objPerc does too, so skipping the unions loses nothing |
| PercolationModel.Percolation.JoinBottom | Percolation.java:121-123 | a last-row site is joined to the bottom node in objPerc only; objFull is not touched |
| PercolationModel.Percolation.Opened | Percolation.java:79-123 | once the neighbours, the top node and the bottom node are joined as open does, the grid invariant holds for the new open sites |
| PercolationModel.Percolation.IsOpen | Percolation.java:135-143 | fails with IndexOutOfBounds exactly when (i, j) is outside the grid; otherwise true exactly when (i, j) is open |
| PercolationModel.Percolation.IsFull | Percolation.java:159-170 | fails with IndexOutOfBounds exactly when (i, j) is outside the grid; otherwise true exactly when an open chain leads to (i, j) from the top row, and only for open sites |
| PercolationModel.Percolation.Percolates | Percolation.java:177-182 | true exactly when an open chain joins the top row to the bottom row |
| PercolationModel.Percolation.FullConnected | Percolation.java:166 | objFull connects (i, j) to the top node exactly when (i, j) is full |
| PercolationModel.Percolation.PercolatesConnected | Percolation.java:179 | objPerc connects the top and bottom nodes exactly when the system percolates |
| PercolationModel.Percolation.FullWithinPerc | Percolation.java:83-116 | any two elements connected in objFull are connected in objPerc |
| PercolationModel.Percolation.BottomAloneInFull | Percolation.java:121-123 | in objFull the bottom node is connected to nothing but itself |
| Grid.XyTo1DInverse | Percolation.java:193-195 | every site of the grid maps into 0..N*N-1, below both virtual nodes, and the site can be recovered from its index |
| Grid.SiteOfInverse | Percolation.java:193-195 | every index in 0..N*N-1 is the index of a site of the grid |
| Grid.XyTo1DInjective | Percolation.java:193-195 | two sites of the grid with the same index are the same site |
| Grid.FullIff | Percolation.java:145-166 | in the full structure's graph the top node reaches a site exactly when an open chain leads to it from the top row |
| Grid.SpansIff | Percolation.java:172-182 | in the percolation structure's graph the top node reaches the bottom node exactly when an open chain joins the top row to the bottom row |
| Grid.BottomIsolated | Percolation.java:119-123 | no edge of the full structure's graph touches the bottom node, so it reaches only itself |
| Grid.EdgesGrow | Percolation.java:79 | opening more sites only adds edges, and every edge of the full graph is one of the percolation graph |
| Grid.OpenedEdges | Percolation.java:79-123 | each edge that opening a site adds touches that site: an open neighbour, the top node for the first row, or the bottom node for the last row |
| Grid.NeighbourEdge | Percolation.java:81-110 | two open 4-neighbours give an edge of the full structure's graph |
| Grid.BottomEdge | Percolation.java:121-123 | an open last-row site gives an edge to the bottom node in the percolation structure's graph |
| Grid.OpenedPercEdge | Percolation.java:79-123 | once the new site's neighbours and top node are joined, every edge of the new percolation graph is an old or joined edge, or the new site's edge to the bottom node |
| Grid.OpenedFullEdge | Percolation.java:79-117 | once the new site's neighbours and top node are joined, every edge of the new full graph is an old or joined edge |
| Grid.ReachThroughBottom | Percolation.java:121-123 | once the system percolates, every open last-row site reaches the top node in the percolation graph, through the bottom node |
| Grid.BackwashExample | Percolation.java:119-123 | a 3-by-3 grid that percolates, where site (3, 3) reaches the top node in the percolation graph but is not full |
| DisjointSets.UnionFind.constructor | Percolation.java:48-49 | n singleton components, no union applied |
| DisjointSets.UnionFind.Union | Percolation.java:83 | records the union, merges the two components, and keeps every earlier connection; a union of connected elements changes nothing |
| DisjointSets.UnionFind.Connected | Percolation.java:166 | true exactly when the unions applied so far connect p and q |
| DisjointSets.UnionFind.ComponentsOf | Percolation.java:179 | once the unions applied come from a graph and join every edge of it, the components are exactly the connected parts of that graph |
| DisjointSets.RelabelMerges | Percolation.java:83 | after merging the components of p and q, two elements share a label exactly when they did before, or one was with p and the other with q |
| Scenarios.OpenCorner | Percolation.java:69-182 | opening (1, 1) of a fresh grid makes it open and full; the grid then percolates exactly when N is 1 |
| Scenarios.TopRow | Percolation.java:69-182 | with (1, 1) and (1, 2) open, both are full and the system does not percolate |
| Scenarios.TopRowThenDown | Percolation.java:69-182 | opening (2, 1) below them makes the system percolate exactly when N is 2, and the blocked (2, 2) is not full |
| Scenarios.TopRowOnly | Percolation.java:145-182 | both top-row sites are full, and no open chain of them reaches row N for N >= 2 |
| Scenarios.DownSpans | Percolation.java:172-182 | the sites (1, 1), (1, 2), (2, 1) span the grid exactly when N is 2 |
| Scenarios.Backwash | Percolation.java:119-123 | the 3-by-3 backwash grid percolates, yet site (3, 3) is not reported full |
| Scenarios.Boundaries | Percolation.java:202-208 | indices 0 and N+1 give IndexOutOfBounds from open, isOpen and isFull, and sizes 0 and -1 give IllegalArgument |

## Left out

- `main` of `Percolation.java` and all of `PercolationStats.java`: standard input and output, random trials and floating-point statistics. They are not part of this model.
- WeightedQuickUnionUF.java is not part of this model. The model gives the union-find structure only its observable contract, as a label per element that `union` relabels. Weighting by size, tree shape and the constant-time claims are not modelled.
- DisjointSets.UnionFind.Union: requires both elements in range, where the library would throw. Every call made by the grid is proved to be in range.
- DisjointSets.UnionFind.Connected: requires both elements in range, where the library would throw. Every call made by the grid is proved to be in range.
- PercolationModel.Percolation.constructor: requires N > 0, because a Dafny constructor cannot fail. The IllegalArgument path for N <= 0 is `PercolationModel.Create`.
- The 32-bit `int` arithmetic of the source is not modelled. For N above 46340, N*N + 2 and the flat indices overflow; the model's integers are unbounded.
- `arr` holds `bool` instead of the `byte` values 0 and 1 of the source.
- The exception messages are not modelled; only the exception kind is.
