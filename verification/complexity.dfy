/** `addComplexity`, the second stage of the Labyrinthe2 generator, and the
    passes it runs after `addComplexPatterns`: opening walls next to paths,
    digging long dead ends, raising wall islands, and finally the
    connectivity check with `ensurePath` as the fallback. */
module Complexity {
  import opened Grids
  import opened Choices
  import opened Edits
  import opened Staircase
  import opened BreadthFirst
  import opened Patterns

  // ---------------------------------------------------------------------
  // Step 2: opening walls next to paths

  predicate HasOpenNeighbour(g: Grid, p: Pos) {
    exists d :: 0 <= d < 4 && OpenAt(g, Neighbour(p, d))
  }

  /** `openNeighbors` for cell (i, j), with the source's bounds checks. */
  function OpenNeighbours(g: Grid, i: int, j: int): (n: nat)
    requires Rectangular(g) && 0 <= i < |g| && 0 <= j < Cols(g)
    ensures n <= 4
    ensures n >= 1 <==> HasOpenNeighbour(g, Pos(i, j))
  {
    var p := Pos(i, j);
    assert Neighbour(p, 0) == Pos(i, j + 1) && Neighbour(p, 1) == Pos(i + 1, j);
    assert Neighbour(p, 2) == Pos(i, j - 1) && Neighbour(p, 3) == Pos(i - 1, j);
    (if i > 0 && g[i - 1][j] == OPEN then 1 else 0) +
    (if i < |g| - 1 && g[i + 1][j] == OPEN then 1 else 0) +
    (if j > 0 && g[i][j - 1] == OPEN then 1 else 0) +
    (if j < Cols(g) - 1 && g[i][j + 1] == OPEN then 1 else 0)
  }

  /** Every cell that differs between g and h was an interior wall of g and
      is open in h, next to a cell open in h. */
  ghost predicate Widened(g: Grid, h: Grid)
    requires SameShape(g, h)
  {
    forall q :: InBounds(g, q) && h[q.x][q.y] != g[q.x][q.y] ==>
      Interior(g, q) && g[q.x][q.y] == WALL && h[q.x][q.y] == OPEN && HasOpenNeighbour(h, q)
  }

  lemma WidenedPainted(g: Grid, h: Grid)
    requires SameShape(g, h) && Widened(g, h)
    ensures Painted(g, h, OPEN)
  {
  }

  /** Opening a wall with an open neighbour keeps `Widened`. */
  lemma OpenWall(g: Grid, r: Grid, p: Pos)
    requires SameShape(g, r) && Widened(g, r) && InBounds(r, p) && Interior(g, p)
    requires r[p.x][p.y] == WALL && HasOpenNeighbour(r, p)
    ensures SameShape(g, SetCell(r, p, OPEN)) && Widened(g, SetCell(r, p, OPEN))
  {
    var h := SetCell(r, p, OPEN);
    var d :| 0 <= d < 4 && OpenAt(r, Neighbour(p, d));
    assert OpenAt(h, Neighbour(p, d));
    forall q | InBounds(g, q) && h[q.x][q.y] != g[q.x][q.y]
      ensures Interior(g, q) && g[q.x][q.y] == WALL && h[q.x][q.y] == OPEN && HasOpenNeighbour(h, q)
    {
      if q != p {
        var e :| 0 <= e < 4 && OpenAt(r, Neighbour(q, e));
        assert OpenAt(h, Neighbour(q, e));
      }
    }
  }

  /** The inner loop of step 2 over row i. A coin is drawn only for walls
      (`&&` short-circuits), standing for `nextDouble() < 0.5`. */
  method OpenWallsRow(g: Grid, r: Grid, i: int, rng: Random) returns (r': Grid, rng': Random)
    requires Rectangular(g) && SameShape(g, r) && Widened(g, r) && 1 <= i < |g| - 1
    ensures SameShape(g, r') && Widened(g, r') && rng'.draw == rng.draw
  {
    r', rng' := r, rng;
    var j := 1;
    while j < Cols(g) - 1
      invariant 1 <= j && SameShape(g, r') && Widened(g, r') && rng'.draw == rng.draw
    {
      if r'[i][j] == WALL {
        var (coin, next) := NextBool(rng');
        rng' := next;
        if coin && OpenNeighbours(r', i, j) >= 1 {
          OpenWall(g, r', Pos(i, j));
          r' := SetCell(r', Pos(i, j), OPEN);
        }
      }
      j := j + 1;
    }
  }

  /** Step 2 of `addComplexity`: interior walls, in row-major order, each
      opened on a coin if some neighbour is open at that moment. */
  method OpenWalls(g: Grid, rng: Random) returns (r: Grid, rng': Random)
    requires Rectangular(g)
    ensures SameShape(g, r) && Widened(g, r) && rng'.draw == rng.draw
  {
    r, rng' := g, rng;
    var i := 1;
    while i < |g| - 1
      invariant 1 <= i && SameShape(g, r) && Widened(g, r) && rng'.draw == rng.draw
    {
      r, rng' := OpenWallsRow(g, r, i, rng');
      i := i + 1;
    }
  }

  // ---------------------------------------------------------------------
  // Step 3: long dead ends

  /** The directions of `createLongDeadEnd`: up, down, left, right. */
  const Steps: seq<Pos> := [Pos(-1, 0), Pos(1, 0), Pos(0, -1), Pos(0, 1)]

  /** The `length` cells straight on from p in direction d, nearest first. */
  function Run(p: Pos, d: Pos, length: nat): (run: seq<Pos>)
    ensures |run| == length
    decreases length
  {
    if length == 0 then [] else [Pos(p.x + d.x, p.y + d.y)] + Run(Pos(p.x + d.x, p.y + d.y), d, length - 1)
  }

  /** The run starts next to p, and each cell is one step beyond the last. */
  lemma {:induction false} RunSteps(p: Pos, d: Pos, length: nat)
    ensures length > 0 ==> Run(p, d, length)[0] == Pos(p.x + d.x, p.y + d.y)
    ensures forall i, j :: 0 <= i && j == i + 1 && j < length ==>
      Run(p, d, length)[j] == Pos(Run(p, d, length)[i].x + d.x, Run(p, d, length)[i].y + d.y)
    decreases length
  {
    if length > 0 {
      var next := Pos(p.x + d.x, p.y + d.y);
      var rest := Run(next, d, length - 1);
      RunSteps(next, d, length - 1);
      assert forall k :: 1 <= k < length ==> Run(p, d, length)[k] == rest[k - 1];
    }
  }

  /** `canExtend`: the cell-by-cell check, stopping at the first failure. It
      holds exactly when every cell of the run is interior and not open. */
  function CanExtend(g: Grid, run: seq<Pos>): (ok: bool)
    requires Rectangular(g)
    ensures ok <==> forall k :: 0 <= k < |run| ==> Interior(g, run[k]) && !OpenAt(g, run[k])
    decreases |run|
  {
    if run == [] then true
    else if !Interior(g, run[0]) || g[run[0].x][run[0].y] == OPEN then false
    else
      assert forall k :: 1 <= k < |run| ==> run[k] == run[1..][k - 1];
      CanExtend(g, run[1..])
  }

  /** A dug run hangs off p: each of its cells is reachable from p. */
  lemma RunReachable(g: Grid, p: Pos, d: Pos, run: seq<Pos>)
    requires d in Steps && |run| >= 1 && run[0] == Pos(p.x + d.x, p.y + d.y)
    requires forall i, j :: 0 <= i && j == i + 1 && j < |run| ==> run[j] == Pos(run[i].x + d.x, run[i].y + d.y)
    requires forall k :: 0 <= k < |run| ==> OpenAt(g, run[k])
    ensures forall k :: 0 <= k < |run| ==> Reachable(g, p, run[k])
  {
    var w := [p] + run;
    assert forall k :: 1 <= k < |w| ==> w[k] == run[k - 1];
    forall k | 0 <= k < |run| ensures Reachable(g, p, run[k]) {
      var v := w[..k + 2];
      assert Route(g, v) && v[0] == p && v[|v| - 1] == run[k];
    }
  }

  /** The second loop of `createLongDeadEnd`: the run from p in direction d
      opened. It lies inside the border, and hangs off p: each dug cell is
      reachable from p. */
  function Dig(g: Grid, p: Pos, d: Pos, length: nat): (r: Grid)
    requires Rectangular(g) && d in Steps && CanExtend(g, Run(p, d, length))
    ensures SameShape(g, r) && Painted(g, r, OPEN)
    ensures forall k :: 0 <= k < length ==> OpenAt(r, Run(p, d, length)[k])
    ensures forall q :: InBounds(g, q) && r[q.x][q.y] != g[q.x][q.y] ==> q in Run(p, d, length)
    ensures forall q :: InBounds(g, q) && r[q.x][q.y] != g[q.x][q.y] ==> Reachable(r, p, q)
  {
    var run := Run(p, d, length);
    RunSteps(p, d, length);
    assert AllInBounds(g, run);
    var r := SetCells(g, run, OPEN);
    DigFacts(g, r, p, d, run);
    r
  }

  lemma DigFacts(g: Grid, r: Grid, p: Pos, d: Pos, run: seq<Pos>)
    requires Rectangular(g) && d in Steps && AllInBounds(g, run) && r == SetCells(g, run, OPEN)
    requires forall k :: 0 <= k < |run| ==> Interior(g, run[k])
    requires |run| >= 1 ==> run[0] == Pos(p.x + d.x, p.y + d.y)
    requires forall i, j :: 0 <= i && j == i + 1 && j < |run| ==> run[j] == Pos(run[i].x + d.x, run[i].y + d.y)
    ensures SameShape(g, r) && Painted(g, r, OPEN)
    ensures forall k :: 0 <= k < |run| ==> OpenAt(r, run[k])
    ensures forall q :: InBounds(g, q) && r[q.x][q.y] != g[q.x][q.y] ==> Reachable(r, p, q)
  {
    DigPainted(g, run);
    DigReach(g, r, p, d, run);
  }

  lemma DigPainted(g: Grid, run: seq<Pos>)
    requires Rectangular(g) && forall k :: 0 <= k < |run| ==> Interior(g, run[k])
    ensures AllInBounds(g, run)
    ensures Painted(g, SetCells(g, run, OPEN), OPEN)
    ensures forall k :: 0 <= k < |run| ==> OpenAt(SetCells(g, run, OPEN), run[k])
  {
    assert AllInBounds(g, run);
    var r := SetCells(g, run, OPEN);
    forall q | InBounds(g, q) && r[q.x][q.y] != g[q.x][q.y] ensures Interior(g, q) && r[q.x][q.y] == OPEN {
      var k :| 0 <= k < |run| && run[k] == q;
    }
  }

  lemma DigReach(g: Grid, r: Grid, p: Pos, d: Pos, run: seq<Pos>)
    requires Rectangular(g) && d in Steps && AllInBounds(g, run) && r == SetCells(g, run, OPEN)
    requires |run| >= 1 ==> run[0] == Pos(p.x + d.x, p.y + d.y)
    requires forall i, j :: 0 <= i && j == i + 1 && j < |run| ==> run[j] == Pos(run[i].x + d.x, run[i].y + d.y)
    ensures forall q :: InBounds(g, q) && r[q.x][q.y] != g[q.x][q.y] ==> Reachable(r, p, q)
  {
    if |run| >= 1 {
      assert forall k :: 0 <= k < |run| ==> OpenAt(r, run[k]);
      RunReachable(r, p, d, run);
      forall q | InBounds(g, q) && r[q.x][q.y] != g[q.x][q.y] ensures Reachable(r, p, q) {
        var k :| 0 <= k < |run| && run[k] == q;
      }
    }
  }

  /** r is g with one run from p dug, two to four cells long. */
  ghost predicate DugFrom(g: Grid, r: Grid, p: Pos)
    requires Rectangular(g)
  {
    exists d, length :: d in Steps && 2 <= length <= 4 && CanExtend(g, Run(p, d, length)) && r == Dig(g, p, d, length)
  }

  /** `createLongDeadEnd(x, y)`: in shuffled direction order, draw a length
      from 2 to 4 and dig the first run that lies inside the border and
      meets no open cell; if none does, nothing changes. */
  method CreateLongDeadEnd(g: Grid, p: Pos, rng: Random) returns (r: Grid, rng': Random)
    requires Rectangular(g)
    ensures SameShape(g, r) && Painted(g, r, OPEN)
    ensures r == g || DugFrom(g, r, p)
    ensures forall q :: InBounds(g, q) && r[q.x][q.y] != g[q.x][q.y] ==> Reachable(r, p, q)
    ensures rng'.draw == rng.draw
  {
    var (dirs, rng1) := Shuffle(Steps, rng);
    r, rng' := g, rng1;
    var i := 0;
    while i < 4
      invariant 0 <= i <= 4 && r == g && rng'.draw == rng.draw
    {
      var (draw, next) := NextInt(rng', 3);
      rng' := next;
      var length := draw + 2;
      var d := dirs[i];
      assert d in multiset(Steps);
      if CanExtend(g, Run(p, d, length)) {
        r := Dig(g, p, d, length);
        assert d in Steps && 2 <= length <= 4 && CanExtend(g, Run(p, d, length)) && r == Dig(g, p, d, length);
        break;
      }
      i := i + 1;
    }
  }

  /** The inner loop of step 3 over row i: each open cell, on a coin
      standing for `nextDouble() < 0.2`, starts a dead end. */
  method DeadEndsRow(g: Grid, r: Grid, i: int, rng: Random) returns (r': Grid, rng': Random)
    requires Rectangular(g) && SameShape(g, r) && Painted(g, r, OPEN) && 1 <= i < |g| - 1
    ensures SameShape(g, r') && Painted(g, r', OPEN) && rng'.draw == rng.draw
  {
    r', rng' := r, rng;
    var j := 1;
    while j < Cols(g) - 1
      invariant 1 <= j && SameShape(g, r') && Painted(g, r', OPEN) && rng'.draw == rng.draw
    {
      if r'[i][j] == OPEN {
        var (coin, next) := NextBool(rng');
        rng' := next;
        if coin {
          var r1, rng1 := CreateLongDeadEnd(r', Pos(i, j), rng');
          PaintedTrans(g, r', r1, OPEN);
          r', rng' := r1, rng1;
        }
      }
      j := j + 1;
    }
  }

  /** Step 3 of `addComplexity`, over the interior in row-major order. */
  method AddDeadEnds(g: Grid, rng: Random) returns (r: Grid, rng': Random)
    requires Rectangular(g)
    ensures SameShape(g, r) && Painted(g, r, OPEN) && rng'.draw == rng.draw
  {
    r, rng' := g, rng;
    var i := 1;
    while i < |g| - 1
      invariant 1 <= i && SameShape(g, r) && Painted(g, r, OPEN) && rng'.draw == rng.draw
    {
      r, rng' := DeadEndsRow(g, r, i, rng');
      i := i + 1;
    }
  }

  // ---------------------------------------------------------------------
  // Step 4: wall islands

  /** One island at anchor a: the anchor becomes a wall, and if `both`, so
      do the cells below it and to its right. The guard keeps all three
      inside the border. */
  function PlaceIsland(g: Grid, a: Pos, both: bool): (r: Grid)
    requires Rectangular(g) && IsSafeToDrawPattern(g, a.x, a.y, 2, 2)
    ensures SameShape(g, r) && Painted(g, r, WALL) && r[a.x][a.y] == WALL
    ensures both ==> r[a.x + 1][a.y] == WALL && r[a.x][a.y + 1] == WALL
    ensures forall q :: InBounds(g, q) && r[q.x][q.y] != g[q.x][q.y] ==>
      q == a || (both && (q == Pos(a.x + 1, a.y) || q == Pos(a.x, a.y + 1)))
  {
    assert Interior(g, a) && Interior(g, Pos(a.x + 1, a.y)) && Interior(g, Pos(a.x, a.y + 1));
    var r := SetCell(g, a, WALL);
    if both then SetCell(SetCell(r, Pos(a.x + 1, a.y), WALL), Pos(a.x, a.y + 1), WALL) else r
  }

  /** `addWallIslands()`: three to seven attempts, each at an anchor drawn
      in [2, rows - 3] × [2, cols - 3] and made only on an open anchor the
      guard admits. The draws need at least 5 rows and columns. Every cell
      walled up was an open anchor or lies just below or right of one. */
  method AddWallIslands(g: Grid, rng: Random) returns (r: Grid, rng': Random)
    requires Rectangular(g) && |g| >= 5 && Cols(g) >= 5
    ensures SameShape(g, r) && Painted(g, r, WALL) && rng'.draw == rng.draw
    ensures forall q :: InBounds(g, q) && r[q.x][q.y] != g[q.x][q.y] ==>
      OpenAt(g, q) || OpenAt(g, Pos(q.x - 1, q.y)) || OpenAt(g, Pos(q.x, q.y - 1))
  {
    var (count, rng1) := NextInt(rng, 5);
    var numIslands := count + 3;
    r, rng' := g, rng1;
    var i := 0;
    while i < numIslands
      invariant SameShape(g, r) && Painted(g, r, WALL) && rng'.draw == rng.draw
      invariant forall q :: InBounds(g, q) && r[q.x][q.y] != g[q.x][q.y] ==>
        OpenAt(g, q) || OpenAt(g, Pos(q.x - 1, q.y)) || OpenAt(g, Pos(q.x, q.y - 1))
    {
      var (ix, rng2) := NextInt(rng', |g| - 4);
      var (iy, rng3) := NextInt(rng2, Cols(g) - 4);
      rng' := rng3;
      var a := Pos(ix + 2, iy + 2);
      if r[a.x][a.y] == OPEN && IsSafeToDrawPattern(r, a.x, a.y, 2, 2) {
        var (both, rng4) := NextBool(rng');
        rng' := rng4;
        var r1 := PlaceIsland(r, a, both);
        assert OpenAt(g, a);
        PaintedTrans(g, r, r1, WALL);
        r := r1;
      }
      i := i + 1;
    }
  }

  // ---------------------------------------------------------------------
  // Step 5 and the whole of addComplexity

  /** The check `if (!isPathExists(1, 1, rows - 2, cols - 2)) ensurePath(...)`:
      a connected maze is left alone; otherwise the staircase between the
      corners is opened. Either way the corners end up connected. */
  method SafetyNet(g: Grid) returns (r: Grid)
    requires Rectangular(g) && |g| >= 3 && Cols(g) >= 3
    ensures SameShape(g, r) && Painted(g, r, OPEN)
    ensures Reachable(r, Pos(1, 1), Pos(|g| - 2, Cols(g) - 2))
    ensures Reachable(g, Pos(1, 1), Pos(|g| - 2, Cols(g) - 2)) ==> r == g
    ensures !Reachable(g, Pos(1, 1), Pos(|g| - 2, Cols(g) - 2)) ==>
      forall p :: InBounds(g, p) ==> r[p.x][p.y] == Staired(g, Pos(1, 1), Pos(|g| - 2, Cols(g) - 2), p)
  {
    var s, e := Pos(1, 1), Pos(|g| - 2, Cols(g) - 2);
    var connected := IsPathExists(g, s, e);
    if !connected {
      r := EnsurePath(g, s, e);
      StairedConnects(g, s, e, r);
      forall q | InBounds(g, q) && r[q.x][q.y] != g[q.x][q.y] ensures Interior(g, q) && r[q.x][q.y] == OPEN {
        assert OnStaircase(s, e, q);
      }
    } else {
      r := g;
    }
  }

  /** `addComplexity()`: patterns, opened walls, dead ends, islands, then the
      safety net. Only interior cells change, each to a wall or a path, and
      the corners (1, 1) and (rows - 2, cols - 2) end up connected. */
  method AddComplexity(g: Grid, rng: Random) returns (r: Grid, rng': Random)
    requires Rectangular(g) && |g| >= 7 && Cols(g) >= 7
    ensures SameShape(g, r) && Redrawn(g, r)
    ensures Reachable(r, Pos(1, 1), Pos(|g| - 2, Cols(g) - 2))
    ensures rng'.draw == rng.draw
  {
    var r1, rng1 := AddComplexPatterns(g, rng);
    PaintedRedrawn(g, r1, OPEN);
    var r2, rng2 := OpenWalls(r1, rng1);
    WidenedPainted(r1, r2);
    PaintedRedrawn(r1, r2, OPEN);
    RedrawnTrans(g, r1, r2);
    var r3, rng3 := AddDeadEnds(r2, rng2);
    PaintedRedrawn(r2, r3, OPEN);
    RedrawnTrans(g, r2, r3);
    var r4, rng4 := AddWallIslands(r3, rng3);
    PaintedRedrawn(r3, r4, WALL);
    RedrawnTrans(g, r3, r4);
    r := SafetyNet(r4);
    PaintedRedrawn(r4, r, OPEN);
    RedrawnTrans(g, r4, r);
    rng' := rng4;
  }
}
