/** The grid vocabulary shared by both copies of the Labyrinth class:
    cells, positions, the four neighbour directions, and 4-neighbour
    reachability through cells that are not walls. */
module Grids {

  /** The `char[][] maze` field, one inner sequence per row. */
  type Grid = seq<seq<char>>

  const WALL: char := '#'
  const OPEN: char := '='
  const START: char := 'S'
  const END: char := 'E'
  /** The symbol the solution overlay writes on path cells. */
  const MARK: char := '+'

  /** A cell position: as in the source, x is the row and y the column. */
  datatype Pos = Pos(x: int, y: int)

  /** Every row has the length of row 0, which is what the source uses as `cols`. */
  predicate Rectangular(g: Grid) {
    |g| >= 1 && forall i :: 0 <= i < |g| ==> |g[i]| == |g[0]|
  }

  function Cols(g: Grid): nat {
    if |g| == 0 then 0 else |g[0]|
  }

  predicate InBounds(g: Grid, p: Pos) {
    0 <= p.x < |g| && 0 <= p.y < |g[p.x]|
  }

  /** A cell the solvers may enter: inside the grid and not a wall. */
  predicate Passable(g: Grid, p: Pos) {
    InBounds(g, p) && g[p.x][p.y] != WALL
  }

  predicate OpenAt(g: Grid, p: Pos) {
    InBounds(g, p) && g[p.x][p.y] == OPEN
  }

  /** Strictly inside the border: the cells the generators may write. */
  predicate Interior(g: Grid, p: Pos) {
    1 <= p.x < |g| - 1 && 1 <= p.y < Cols(g) - 1
  }

  /** The exploration order of both solvers: right, down, left, up. */
  const Dirs: seq<Pos> := [Pos(0, 1), Pos(1, 0), Pos(0, -1), Pos(-1, 0)]

  function Neighbour(p: Pos, i: int): Pos
    requires 0 <= i < 4
  {
    Pos(p.x + Dirs[i].x, p.y + Dirs[i].y)
  }

  predicate Adjacent(p: Pos, q: Pos) {
    (p.x == q.x && (p.y - q.y == 1 || q.y - p.y == 1)) ||
    (p.y == q.y && (p.x - q.x == 1 || q.x - p.x == 1))
  }

  /** A route as the breadth-first searches see it: consecutive cells are
      4-adjacent and every cell after the first is passable (the first cell
      is where the search starts, and it is never checked). */
  predicate Route(g: Grid, w: seq<Pos>) {
    && |w| >= 1
    && (forall i :: 1 <= i < |w| ==> Passable(g, w[i]))
    && (forall i :: 0 <= i < |w| - 1 ==> Adjacent(w[i], w[i + 1]))
  }

  /** A route whose first cell is passable too, as the depth-first search builds. */
  predicate Walk(g: Grid, w: seq<Pos>) {
    Route(g, w) && Passable(g, w[0])
  }

  predicate Distinct(w: seq<Pos>) {
    forall i, j :: 0 <= i < j < |w| ==> w[i] != w[j]
  }

  /** `e` can be reached from `s` through in-bounds, non-wall 4-neighbours. */
  ghost predicate Reachable(g: Grid, s: Pos, e: Pos) {
    exists w :: Route(g, w) && w[0] == s && w[|w| - 1] == e
  }

  /** The positions of an r-by-c grid. */
  function Box(r: nat, c: nat): set<Pos> {
    set x, y | 0 <= x < r && 0 <= y < c :: Pos(x, y)
  }

  function Cells(g: Grid): set<Pos> {
    Box(|g|, Cols(g))
  }

  /** A set that contains every passable neighbour of each of its members. */
  ghost predicate Closed(g: Grid, s: set<Pos>) {
    forall q, i :: q in s && 0 <= i < 4 && Passable(g, Neighbour(q, i)) ==> Neighbour(q, i) in s
  }

  lemma CellsAreInBounds(g: Grid, p: Pos)
    requires Rectangular(g)
    ensures p in Cells(g) <==> InBounds(g, p)
  {
  }

  lemma AdjacentIsNeighbour(p: Pos, q: Pos) returns (i: int)
    requires Adjacent(p, q)
    ensures 0 <= i < 4 && q == Neighbour(p, i)
  {
    if q.y == p.y + 1 && q.x == p.x { i := 0; }
    else if q.x == p.x + 1 && q.y == p.y { i := 1; }
    else if q.y == p.y - 1 && q.x == p.x { i := 2; }
    else { i := 3; }
  }

  lemma NeighbourIsAdjacent(p: Pos, i: int)
    requires 0 <= i < 4
    ensures Adjacent(p, Neighbour(p, i))
  {
  }

  function RowCells(r: nat, c: nat): set<Pos> {
    set y | 0 <= y < c :: Pos(r, y)
  }

  lemma {:induction false} RowCount(r: nat, c: nat)
    ensures |RowCells(r, c)| == c
  {
    if c > 0 {
      RowCount(r, c - 1);
      assert RowCells(r, c) == RowCells(r, c - 1) + {Pos(r, c - 1)};
    }
  }

  /** An r-by-c grid has r * c cells, so counters of distinct cells stay below that. */
  lemma {:induction false} BoxCount(r: nat, c: nat)
    ensures |Box(r, c)| == r * c
  {
    if r > 0 {
      BoxCount(r - 1, c);
      RowCount(r - 1, c);
      BoxSplit(r, c);
      assert (r - 1) * c + c == r * c;
    }
  }

  /** The last row of a box splits off from the rows above it. */
  lemma BoxSplit(r: nat, c: nat)
    requires r > 0
    ensures Box(r, c) == Box(r - 1, c) + RowCells(r - 1, c)
    ensures Box(r - 1, c) !! RowCells(r - 1, c)
  {
    forall p | p in Box(r, c) ensures p in Box(r - 1, c) + RowCells(r - 1, c) {
      if p.x < r - 1 { assert p in Box(r - 1, c); } else { assert p in RowCells(r - 1, c); }
    }
  }

  /** Set-size facts for the counters of visited cells. */
  lemma DiffChain(a: set<Pos>, b: set<Pos>, c: set<Pos>)
    requires a <= b <= c
    ensures |c - a| == |c - b| + |b - a|
  {
    assert c - a == (c - b) + (b - a);
    assert (c - b) !! (b - a);
  }

  lemma {:induction false} SubsetSize(a: set<Pos>, b: set<Pos>)
    requires a <= b
    ensures |a| <= |b|
  {
    if a != {} {
      var x :| x in a;
      SubsetSize(a - {x}, b - {x});
    }
  }

  lemma FewerUnvisited(all: set<Pos>, a: set<Pos>, b: set<Pos>)
    requires a <= b
    ensures |all - b| <= |all - a|
  {
    SubsetSize(all - b, all - a);
  }

  lemma MarkOne(all: set<Pos>, v: set<Pos>, p: Pos)
    requires p in all && p !in v
    ensures |all - (v + {p})| < |all - v|
  {
    assert all - v == (all - (v + {p})) + {p};
  }

  /** Opening cells never disconnects anything. */
  lemma ReachableMonotone(g: Grid, h: Grid, s: Pos, e: Pos)
    requires forall p :: Passable(g, p) ==> Passable(h, p)
    requires Reachable(g, s, e)
    ensures Reachable(h, s, e)
  {
    var w :| Route(g, w) && w[0] == s && w[|w| - 1] == e;
    assert Route(h, w);
  }

  /** Routes chain: reaching b from a and c from b reaches c from a. */
  lemma ReachableTrans(g: Grid, a: Pos, b: Pos, c: Pos)
    requires Reachable(g, a, b) && Reachable(g, b, c)
    ensures Reachable(g, a, c)
  {
    var u :| Route(g, u) && u[0] == a && u[|u| - 1] == b;
    var v :| Route(g, v) && v[0] == b && v[|v| - 1] == c;
    var w := u + v[1..];
    assert forall i :: |u| <= i < |w| ==> w[i] == v[i - |u| + 1];
    assert Route(g, w);
  }

  /** A route that starts inside a closed set never leaves it. */
  lemma {:induction false} ClosedKeepsRoutes(g: Grid, s: set<Pos>, w: seq<Pos>)
    requires Closed(g, s)
    requires Route(g, w) && w[0] in s
    ensures w[|w| - 1] in s
  {
    if |w| > 1 {
      var v := w[..|w| - 1];
      assert Route(g, v);
      ClosedKeepsRoutes(g, s, v);
      var i := AdjacentIsNeighbour(w[|w| - 2], w[|w| - 1]);
      assert Passable(g, w[|w| - 1]);
    }
  }

  /** So a closed set holding `s` but not `e` witnesses that `e` is unreachable. */
  lemma ClosedSeparates(g: Grid, s: set<Pos>, a: Pos, e: Pos)
    requires Closed(g, s) && a in s && e !in s
    ensures !Reachable(g, a, e)
  {
    if Reachable(g, a, e) {
      var w :| Route(g, w) && w[0] == a && w[|w| - 1] == e;
      ClosedKeepsRoutes(g, s, w);
    }
  }

  /** Every route covers at least the Manhattan distance between its ends. */
  lemma {:induction false} RouteLength(g: Grid, w: seq<Pos>)
    requires Route(g, w)
    ensures |w| - 1 >= Abs(w[0].x - w[|w| - 1].x) + Abs(w[0].y - w[|w| - 1].y)
  {
    if |w| > 1 {
      var v := w[..|w| - 1];
      assert Route(g, v);
      RouteLength(g, v);
    }
  }

  function Abs(n: int): nat {
    if n < 0 then -n else n
  }
}
