/** `generateRandomMaze` of the Labyrinthe2 copy of the class: a maze of
    walls carved by recursive backtracking from (1, 1), made more complex,
    with `S` and `E` placed in opposite corners. */
module Generator {
  import opened Grids
  import opened Choices
  import opened Labyrinths
  import opened Edits
  import opened Carving
  import opened Complexity

  /** The fill loop: a rows × cols maze of walls. */
  function AllWalls(rows: nat, cols: nat): (g: Grid)
    ensures |g| == rows && forall i :: 0 <= i < rows ==> |g[i]| == cols
    ensures forall i, j :: 0 <= i < rows && 0 <= j < cols ==> g[i][j] == WALL
  {
    seq(rows, i => seq(cols, j => WALL))
  }

  lemma AllWallsPlain(rows: nat, cols: nat)
    requires rows >= 1
    ensures Rectangular(AllWalls(rows, cols)) && Plain(AllWalls(rows, cols))
    ensures forall p :: InBounds(AllWalls(rows, cols), p) ==> AllWalls(rows, cols)[p.x][p.y] == WALL
  {
  }

  lemma CarvedRedrawn(g: Grid, h: Grid)
    requires SameShape(g, h) && Carved(g, h)
    ensures Redrawn(g, h)
  {
  }

  /** The maze after both stages and before `S` and `E` are placed. */
  method Build(rows: int, cols: int, rng: Random) returns (g: Grid, rng': Random)
    requires rows >= 7 && cols >= 7
    ensures Rectangular(g) && |g| == rows && Cols(g) == cols && Plain(g)
    ensures forall p :: InBounds(g, p) && !Interior(g, p) ==> g[p.x][p.y] == WALL
    ensures Reachable(g, Pos(1, 1), Pos(rows - 2, cols - 2))
    ensures rng'.draw == rng.draw
  {
    var walls := AllWalls(rows, cols);
    AllWallsPlain(rows, cols);
    var carved, rng1 := Carve(walls, Pos(1, 1), rng);
    CarvedRedrawn(walls, carved);
    g, rng' := AddComplexity(carved, rng1);
    RedrawnTrans(walls, carved, g);
    RedrawnKeeps(walls, g);
  }

  /** Placing `S` at (1, 1) and `E` at (rows - 2, cols - 2) on a plain maze
      leaves exactly one of each, keeps the border, and walls no cell. */
  lemma PlaceMarkers(g: Grid, h: Grid, s: Pos, e: Pos)
    requires Rectangular(g) && Plain(g) && Interior(g, s) && Interior(g, e) && s != e
    requires h == SetCell(SetCell(g, s, START), e, END)
    ensures Rectangular(h) && |h| == |g| && Cols(h) == Cols(g)
    ensures forall p :: InBounds(h, p) && !Interior(h, p) ==> h[p.x][p.y] == g[p.x][p.y]
    ensures forall p :: InBounds(h, p) && p != s && p != e ==> h[p.x][p.y] == g[p.x][p.y]
    ensures HasMarker(h, START) && forall p :: HoldsAt(h, START, p) ==> p == s
    ensures HasMarker(h, END) && forall p :: HoldsAt(h, END, p) ==> p == e
    ensures forall p :: Passable(g, p) ==> Passable(h, p)
  {
    assert HoldsAt(h, START, s) && HoldsAt(h, END, e);
  }

  /** `generateRandomMaze(rows, cols)` of the Labyrinthe2 copy. The pattern
      anchors `nextInt(rows - 6) + 3` need at least 7 rows and columns; with
      fewer the source throws. */
  method GenerateRandomMaze(lab: Labyrinth, rows: int, cols: int, rng: Random) returns (r: Labyrinth, rng': Random)
    requires rows >= 7 && cols >= 7
    ensures Rectangular(r.maze) && |r.maze| == rows && Cols(r.maze) == cols
    ensures forall p :: InBounds(r.maze, p) && !Interior(r.maze, p) ==> r.maze[p.x][p.y] == WALL
    ensures r.start == Pos(1, 1) && r.maze[1][1] == START
    ensures r.end == Pos(rows - 2, cols - 2) && r.maze[rows - 2][cols - 2] == END
    ensures forall p :: InBounds(r.maze, p) && p != r.start && p != r.end ==>
      r.maze[p.x][p.y] == WALL || r.maze[p.x][p.y] == OPEN
    ensures Reachable(r.maze, r.start, r.end)
    ensures rng'.draw == rng.draw
  {
    var g;
    g, rng' := Build(rows, cols, rng);
    var s, e := Pos(1, 1), Pos(rows - 2, cols - 2);
    var h := SetCell(SetCell(g, s, START), e, END);
    PlaceMarkers(g, h, s, e);
    ReachableMonotone(g, h, s, e);
    var start, end := FindStartAndEnd(h, lab.start, lab.end);
    r := Labyrinth(h, start, end);
  }
}
