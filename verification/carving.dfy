/** `recursiveBacktracking`, the first stage of the Labyrinthe2 generator:
    from a room (an interior cell with odd row and column) it opens the room,
    then tries the four rooms two steps away in shuffled order, and for each
    that is still a wall opens the mortar cell between them and carves on
    from there. */
module Carving {
  import opened Grids
  import opened Choices
  import opened Edits

  /** The jumps of the carving in the source's order: up, right, down, left. */
  const Jumps: seq<Pos> := [Pos(-2, 0), Pos(0, 2), Pos(2, 0), Pos(0, -2)]

  predicate Odd(n: int) {
    n % 2 == 1
  }

  /** An interior cell with odd row and column: the cells the carving stands on. */
  predicate Room(g: Grid, p: Pos) {
    Interior(g, p) && Odd(p.x) && Odd(p.y)
  }

  /** A cell between two open cells of odd coordinates, in one row or one column. */
  predicate Mortar(g: Grid, p: Pos) {
    (Odd(p.x) && !Odd(p.y) && OpenAt(g, Pos(p.x, p.y - 1)) && OpenAt(g, Pos(p.x, p.y + 1))) ||
    (!Odd(p.x) && Odd(p.y) && OpenAt(g, Pos(p.x - 1, p.y)) && OpenAt(g, Pos(p.x + 1, p.y)))
  }

  /** The rooms that are still walls: each recursive call opens one of them. */
  function RoomWalls(g: Grid): set<Pos> {
    set x, y | 1 <= x < |g| - 1 && 1 <= y < Cols(g) - 1 && y < |g[x]| && Odd(x) && Odd(y) && g[x][y] == WALL :: Pos(x, y)
  }

  /** Every cell that changes from g to h is interior and becomes open, and
      is a room or a mortar cell between two open rooms of h. */
  ghost predicate Carved(g: Grid, h: Grid)
    requires SameShape(g, h)
  {
    forall p :: InBounds(g, p) && h[p.x][p.y] != g[p.x][p.y] ==>
      Interior(g, p) && h[p.x][p.y] == OPEN && (Room(g, p) || Mortar(h, p))
  }

  /** Carving only ever opens cells. */
  lemma CarvedKeepsOpen(g: Grid, h: Grid)
    requires SameShape(g, h) && Carved(g, h)
    ensures forall p :: Passable(g, p) ==> Passable(h, p)
    ensures forall p :: OpenAt(g, p) ==> OpenAt(h, p)
    ensures RoomWalls(h) <= RoomWalls(g)
  {
    forall p | p in RoomWalls(h) ensures p in RoomWalls(g) {
      assert InBounds(g, p);
    }
  }

  /** Opening a room wall leaves one fewer of them. */
  lemma OpenRoom(g: Grid, p: Pos)
    requires Rectangular(g) && Room(g, p) && g[p.x][p.y] == WALL
    ensures |RoomWalls(SetCell(g, p, OPEN))| < |RoomWalls(g)|
  {
    var h := SetCell(g, p, OPEN);
    assert RoomWalls(h) <= RoomWalls(g) - {p};
    SubsetSize(RoomWalls(h), RoomWalls(g) - {p});
  }

  /** Where a jump from a room goes: to another odd cell, through a cell
      adjacent to both. */
  lemma JumpCells(p: Pos, d: Pos, m: Pos, n: Pos)
    requires d in Jumps && Odd(p.x) && Odd(p.y)
    requires m == Pos(p.x + d.x / 2, p.y + d.y / 2) && n == Pos(p.x + d.x, p.y + d.y)
    ensures Odd(n.x) && Odd(n.y) && Adjacent(p, m) && Adjacent(m, n) && m != n
  {
  }

  /** Once both ends of a jump are open, the cell it passes through is mortar. */
  lemma JumpMortar(h: Grid, p: Pos, d: Pos, m: Pos, n: Pos)
    requires d in Jumps && Odd(p.x) && Odd(p.y)
    requires m == Pos(p.x + d.x / 2, p.y + d.y / 2) && n == Pos(p.x + d.x, p.y + d.y)
    requires OpenAt(h, p) && OpenAt(h, n)
    ensures Mortar(h, m)
  {
  }

  /** Mortar stays mortar while cells only open. */
  lemma MortarStays(a: Grid, b: Grid, q: Pos)
    requires Mortar(a, q) && forall c :: OpenAt(a, c) ==> OpenAt(b, c)
    ensures Mortar(b, q)
  {
  }

  /** One iteration of the loop that found a wall room two steps from p:
      the cells changed so far still satisfy `Carved` after the mortar cell
      m is opened and the recursive carving has run. */
  lemma CarveStep(g: Grid, r: Grid, r1: Grid, r2: Grid, m: Pos)
    requires SameShape(g, r) && SameShape(r, r1) && SameShape(r1, r2)
    requires Carved(g, r) && InBounds(r, m) && Interior(g, m) && r1 == SetCell(r, m, OPEN) && Carved(r1, r2)
    requires Mortar(r2, m)
    ensures SameShape(g, r2) && Carved(g, r2)
  {
    CarvedKeepsOpen(r1, r2);
    forall q | InBounds(g, q) && r2[q.x][q.y] != g[q.x][q.y]
      ensures Interior(g, q) && r2[q.x][q.y] == OPEN && (Room(g, q) || Mortar(r2, q))
    {
      if q == m {
      } else if r[q.x][q.y] != g[q.x][q.y] {
        assert r1[q.x][q.y] == OPEN;
        if !Room(g, q) {
          forall c | OpenAt(r, c) ensures OpenAt(r2, c) {
            assert OpenAt(r1, c);
          }
          MortarStays(r, r2, q);
        }
      } else {
        assert r1[q.x][q.y] == r[q.x][q.y];
      }
    }
  }

  /** Every cell changed in the step is reachable from p. */
  lemma CarveStepReach(g: Grid, r: Grid, r1: Grid, r2: Grid, p: Pos, m: Pos, n: Pos)
    requires SameShape(g, r) && SameShape(r, r1) && SameShape(r1, r2)
    requires InBounds(r, m) && r1 == SetCell(r, m, OPEN) && Carved(r1, r2)
    requires OpenAt(r2, n) && Adjacent(p, m) && Adjacent(m, n)
    requires forall q :: InBounds(g, q) && r[q.x][q.y] != g[q.x][q.y] ==> Reachable(r, p, q)
    requires forall q :: InBounds(r1, q) && r2[q.x][q.y] != r1[q.x][q.y] ==> Reachable(r2, n, q)
    ensures forall q :: InBounds(g, q) && r2[q.x][q.y] != g[q.x][q.y] ==> Reachable(r2, p, q)
  {
    CarvedKeepsOpen(r1, r2);
    assert forall c :: Passable(r, c) ==> Passable(r1, c);
    assert Route(r2, [p, m]);
    assert Route(r2, [p, m, n]);
    forall q | InBounds(g, q) && r2[q.x][q.y] != g[q.x][q.y] ensures Reachable(r2, p, q) {
      if q == m {
      } else if r[q.x][q.y] != g[q.x][q.y] {
        ReachableMonotone(r, r2, p, q);
      } else {
        assert r2[q.x][q.y] != r1[q.x][q.y];
        ReachableTrans(r2, p, n, q);
      }
    }
  }

  /** Opening the mortar cell of a jump opens no room. */
  lemma MortarKeepsCount(g: Grid, r: Grid, m: Pos)
    requires SameShape(g, r) && Carved(g, r) && InBounds(r, m)
    ensures |RoomWalls(SetCell(r, m, OPEN))| <= |RoomWalls(r)|
  {
    var r1 := SetCell(r, m, OPEN);
    assert RoomWalls(r1) <= RoomWalls(r) by {
      forall c | c in RoomWalls(r1) ensures c in RoomWalls(r) { assert InBounds(r, c); }
    }
    SubsetSize(RoomWalls(r1), RoomWalls(r));
  }

  /** The loop invariant of `Carve` after a jump from p through m to n and
      the recursive carving from n. */
  lemma JumpDone(g: Grid, r: Grid, r1: Grid, r2: Grid, p: Pos, d: Pos, m: Pos, n: Pos)
    requires d in Jumps && Odd(p.x) && Odd(p.y)
    requires m == Pos(p.x + d.x / 2, p.y + d.y / 2) && n == Pos(p.x + d.x, p.y + d.y)
    requires Rectangular(g) && SameShape(g, r) && OpenAt(r, p) && Carved(g, r) && Interior(g, n)
    requires forall q :: InBounds(g, q) && r[q.x][q.y] != g[q.x][q.y] ==> Reachable(r, p, q)
    requires r1 == SetCell(r, m, OPEN)
    requires SameShape(r1, r2) && r2[n.x][n.y] == OPEN && Carved(r1, r2)
    requires forall q :: InBounds(r1, q) && r2[q.x][q.y] != r1[q.x][q.y] ==> Reachable(r2, n, q)
    ensures SameShape(g, r2) && OpenAt(r2, p) && Carved(g, r2)
    ensures |RoomWalls(r2)| <= |RoomWalls(r1)|
    ensures forall q :: InBounds(g, q) && r2[q.x][q.y] != g[q.x][q.y] ==> Reachable(r2, p, q)
  {
    JumpCells(p, d, m, n);
    CarvedKeepsOpen(r1, r2);
    SubsetSize(RoomWalls(r2), RoomWalls(r1));
    assert OpenAt(r1, p);
    JumpMortar(r2, p, d, m, n);
    CarveStep(g, r, r1, r2, m);
    CarveStepReach(g, r, r1, r2, p, m, n);
  }

  /** What `Carve` from p has achieved on its way from g to r: only
      carving changes, p open, and every changed cell reachable from p. */
  ghost predicate CarvedFrom(g: Grid, r: Grid, p: Pos) {
    && SameShape(g, r) && OpenAt(r, p) && Carved(g, r)
    && forall q :: InBounds(g, q) && r[q.x][q.y] != g[q.x][q.y] ==> Reachable(r, p, q)
  }

  /** Opening the room p starts a carving from p. */
  lemma CarveStart(g: Grid, p: Pos)
    requires Rectangular(g) && Room(g, p) && g[p.x][p.y] == WALL
    ensures CarvedFrom(g, SetCell(g, p, OPEN), p)
    ensures |RoomWalls(SetCell(g, p, OPEN))| < |RoomWalls(g)|
  {
    var r := SetCell(g, p, OPEN);
    OpenRoom(g, p);
    assert Route(r, [p]);
  }

  /** `recursiveBacktracking(x, y)` at p = (x, y). The source's callers only
      pass wall rooms, and the shuffled jumps keep the walk on rooms. */
  method Carve(g: Grid, p: Pos, rng: Random) returns (r: Grid, rng': Random)
    requires Rectangular(g) && Room(g, p) && g[p.x][p.y] == WALL
    ensures SameShape(g, r) && r[p.x][p.y] == OPEN
    ensures Carved(g, r)
    ensures forall q :: InBounds(g, q) && r[q.x][q.y] != g[q.x][q.y] ==> Reachable(r, p, q)
    ensures rng'.draw == rng.draw
    decreases |RoomWalls(g)|, 1
  {
    r := SetCell(g, p, OPEN);
    CarveStart(g, p);
    var (jumps, rng1) := Shuffle(Jumps, rng);
    rng' := rng1;
    var i := 0;
    while i < 4
      invariant 0 <= i <= 4 && CarvedFrom(g, r, p) && |RoomWalls(r)| < |RoomWalls(g)|
      invariant rng'.draw == rng.draw
    {
      assert jumps[i] in multiset(Jumps);
      r, rng' := Jump(g, r, p, jumps[i], rng');
      i := i + 1;
    }
  }

  /** One iteration of the loop of `recursiveBacktracking` at p, for jump d.
      Java's `dir / 2` truncates and Dafny's `/` is Euclidean; on the
      components of a jump (0 and ±2) they agree. */
  method Jump(g: Grid, r: Grid, p: Pos, d: Pos, rng: Random) returns (r': Grid, rng': Random)
    requires Rectangular(g) && Room(g, p) && d in Jumps && CarvedFrom(g, r, p)
    ensures CarvedFrom(g, r', p) && |RoomWalls(r')| <= |RoomWalls(r)|
    ensures rng'.draw == rng.draw
    decreases |RoomWalls(r)|, 2
  {
    r', rng' := r, rng;
    var n := Pos(p.x + d.x, p.y + d.y);
    if n.x > 0 && n.x < |r| - 1 && n.y > 0 && n.y < Cols(r) - 1 && r[n.x][n.y] == WALL {
      var m := Pos(p.x + d.x / 2, p.y + d.y / 2);
      JumpCells(p, d, m, n);
      var r1 := SetCell(r, m, OPEN);
      MortarKeepsCount(g, r, m);
      var r2, rng2 := Carve(r1, n, rng);
      JumpDone(g, r, r1, r2, p, d, m, n);
      r', rng' := r2, rng2;
    }
  }
}
