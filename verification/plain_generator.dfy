/** `generateRandomMaze` of the labyrinthsolver copy of the class: a walled
    border around an interior of independent random cells, `S` and `E` in
    opposite corners, and `ensurePath` to connect them. */
module PlainGenerator {
  import opened Grids
  import opened Choices
  import opened Labyrinths
  import opened Edits
  import opened Staircase

  predicate OnBorder(rows: int, cols: int, p: Pos) {
    p.x == 0 || p.y == 0 || p.x == rows - 1 || p.y == cols - 1
  }

  /** The draws the fill loop has made before it reaches row i: one per
      interior cell, none on the border. */
  function RowStart(rows: int, cols: int, i: int): int {
    if i <= 1 then 0 else (if i < rows - 1 then i - 1 else rows - 2) * (cols - 2)
  }

  /** The draw that decides interior cell p, counted from the first. */
  function DrawIndex(cols: int, p: Pos): int {
    (p.x - 1) * (cols - 2) + (p.y - 1)
  }

  /** `Math.random() < 0.3` on draw k: true makes the cell a wall. */
  function Coin(rng: Random, k: nat): bool {
    NextBool(Random(rng.draw, rng.next + k)).0
  }

  /** The symbol the fill loop gives cell p of a rows × cols maze. */
  function Filled(rows: int, cols: int, rng: Random, p: Pos): (c: char)
    requires rows >= 3 && cols >= 3
    ensures c == WALL || c == OPEN
  {
    if OnBorder(rows, cols, p) || p.x < 0 || p.y < 0 then WALL
    else
      assert DrawIndex(cols, p) >= 0 by {
        assert (p.x - 1) * (cols - 2) >= 0;
      }
      if Coin(rng, DrawIndex(cols, p)) then WALL else OPEN
  }

  /** One pass of the inner fill loop, over row i. */
  method FillRow(rows: int, cols: int, i: int, rng: Random, cur: Random) returns (row: seq<char>, cur': Random)
    requires rows >= 3 && cols >= 3 && 0 <= i < rows
    requires cur.draw == rng.draw && cur.next == rng.next + RowStart(rows, cols, i)
    ensures |row| == cols
    ensures forall j :: 0 <= j < cols ==> row[j] == Filled(rows, cols, rng, Pos(i, j))
    ensures cur'.draw == rng.draw && cur'.next == rng.next + RowStart(rows, cols, i + 1)
  {
    var border := i == 0 || i == rows - 1;
    row, cur' := [], cur;
    var j := 0;
    while j < cols
      invariant 0 <= j <= cols && |row| == j
      invariant forall k :: 0 <= k < j ==> row[k] == Filled(rows, cols, rng, Pos(i, k))
      invariant cur'.draw == rng.draw
      invariant cur'.next == rng.next + RowStart(rows, cols, i) + (if border || j == 0 then 0 else if j < cols - 1 then j - 1 else cols - 2)
    {
      if OnBorder(rows, cols, Pos(i, j)) {
        row := row + [WALL];
      } else {
        assert cur'.next == rng.next + DrawIndex(cols, Pos(i, j));
        var (coin, next) := NextBool(cur');
        row := row + [if coin then WALL else OPEN];
        cur' := next;
      }
      j := j + 1;
    }
    if !border {
      assert (i - 1) * (cols - 2) + (cols - 2) == i * (cols - 2);
    }
  }

  /** The nested fill loop: border cells are walls, and each interior cell
      is decided by its own draw, in row-major order. */
  method Fill(rows: int, cols: int, rng: Random) returns (g: Grid, rng': Random)
    requires rows >= 3 && cols >= 3
    ensures Rectangular(g) && |g| == rows && Cols(g) == cols
    ensures forall p :: InBounds(g, p) ==> g[p.x][p.y] == Filled(rows, cols, rng, p)
    ensures rng'.draw == rng.draw && rng'.next == rng.next + (rows - 2) * (cols - 2)
  {
    g, rng' := [], rng;
    var i := 0;
    while i < rows
      invariant 0 <= i <= rows && |g| == i
      invariant forall k :: 0 <= k < i ==> |g[k]| == cols
      invariant forall p: Pos :: 0 <= p.x < i && 0 <= p.y < cols ==> g[p.x][p.y] == Filled(rows, cols, rng, p)
      invariant rng'.draw == rng.draw && rng'.next == rng.next + RowStart(rows, cols, i)
    {
      var row;
      row, rng' := FillRow(rows, cols, i, rng, rng');
      g := g + [row];
      i := i + 1;
    }
  }

  /** The maze the generator leaves: the random fill with `S` at (1, 1) and
      then `E` at (rows - 2, cols - 2) on top of it, and the staircase
      between those corners opened. */
  function Generated(rows: int, cols: int, rng: Random, p: Pos): (c: char)
    requires rows >= 3 && cols >= 3
  {
    if p == Pos(rows - 2, cols - 2) then END
    else if p == Pos(1, 1) then START
    else if OnStaircase(Pos(1, 1), Pos(rows - 2, cols - 2), p) then OPEN
    else Filled(rows, cols, rng, p)
  }

  /** Where the markers and walls of a generated maze are: `E` only in its
      corner, `S` only at (1, 1) unless `E` took that cell, and walls all
      round the border. */
  lemma GeneratedShape(rows: int, cols: int, rng: Random, h: Grid)
    requires rows >= 3 && cols >= 3 && |h| == rows && Rectangular(h) && Cols(h) == cols
    requires forall p :: InBounds(h, p) ==> h[p.x][p.y] == Generated(rows, cols, rng, p)
    ensures HasMarker(h, END) && forall p :: HoldsAt(h, END, p) ==> p == Pos(rows - 2, cols - 2)
    ensures (rows > 3 || cols > 3) ==> HasMarker(h, START) && forall p :: HoldsAt(h, START, p) ==> p == Pos(1, 1)
    ensures rows == 3 && cols == 3 ==> !HasMarker(h, START)
    ensures forall p :: InBounds(h, p) && !Interior(h, p) ==> h[p.x][p.y] == WALL
  {
    assert HoldsAt(h, END, Pos(rows - 2, cols - 2));
    if rows > 3 || cols > 3 {
      assert HoldsAt(h, START, Pos(1, 1));
    }
  }

  /** `generateRandomMaze(rows, cols)` of the labyrinthsolver copy. Below
      3 × 3 the source fails (an index out of bounds, or a `ensurePath` that
      never ends), hence the precondition. In a 3 × 3 maze `E` overwrites
      `S`, so the maze has no start and the start coordinates keep their
      previous values. */
  method GenerateRandomMaze(lab: Labyrinth, rows: int, cols: int, rng: Random) returns (r: Labyrinth, rng': Random)
    requires rows >= 3 && cols >= 3
    ensures Rectangular(r.maze) && |r.maze| == rows && Cols(r.maze) == cols
    ensures forall p :: InBounds(r.maze, p) ==> r.maze[p.x][p.y] == Generated(rows, cols, rng, p)
    ensures forall p :: InBounds(r.maze, p) && !Interior(r.maze, p) ==> r.maze[p.x][p.y] == WALL
    ensures Reachable(r.maze, Pos(1, 1), Pos(rows - 2, cols - 2))
    ensures r.end == Pos(rows - 2, cols - 2)
    ensures (rows > 3 || cols > 3) ==> r.start == Pos(1, 1) && r.maze[1][1] == START
    ensures rows == 3 && cols == 3 ==> !HasMarker(r.maze, START) && r.start == lab.start
    ensures rng'.draw == rng.draw && rng'.next == rng.next + (rows - 2) * (cols - 2)
  {
    var g;
    g, rng' := Fill(rows, cols, rng);
    var s, e := Pos(1, 1), Pos(rows - 2, cols - 2);
    g := SetCell(g, s, START);
    g := SetCell(g, e, END);
    var h := EnsurePath(g, s, e);
    StairedConnects(g, s, e, h);
    assert Rectangular(h) by {
      forall i | 0 <= i < |h| ensures |h[i]| == |h[0]| { }
    }
    forall p | InBounds(h, p) ensures h[p.x][p.y] == Generated(rows, cols, rng, p) {
      assert InBounds(g, p);
    }
    GeneratedShape(rows, cols, rng, h);
    var start, end := FindStartAndEnd(h, lab.start, lab.end);
    r := Labyrinth(h, start, end);
  }
}
