/** The state of a `Labyrinth` object (maze, start and end fields) and the
    row-major endpoint scan `findStartAndEnd`, which is the same apart from
    comments in both copies of the class. */
module Labyrinths {
  import opened Grids

  /** The fields `maze`, (`startX`, `startY`) and (`endX`, `endY`);
      `rows` and `cols` are the dimensions of `maze`. */
  datatype Labyrinth = Labyrinth(maze: Grid, start: Pos, end: Pos)

  /** The nested class `SolveResult` without its `timeMs` field. */
  datatype SolveResult = SolveResult(path: seq<Pos>, steps: nat, found: bool)

  /** `p` comes no later than `q` in row-major order. */
  predicate RowMajorLE(p: Pos, q: Pos) {
    p.x < q.x || (p.x == q.x && p.y <= q.y)
  }

  /** `q` lies strictly before the scan point (i, j). */
  predicate Before(q: Pos, i: int, j: int) {
    q.x < i || (q.x == i && q.y < j)
  }

  predicate HoldsAt(g: Grid, c: char, q: Pos) {
    InBounds(g, q) && g[q.x][q.y] == c
  }

  ghost predicate HasMarker(g: Grid, c: char) {
    exists q :: HoldsAt(g, c, q)
  }

  /** `p` holds `c` and no later cell in row-major order does. */
  ghost predicate LastMarker(g: Grid, c: char, p: Pos) {
    HoldsAt(g, c, p) && forall q :: HoldsAt(g, c, q) ==> RowMajorLE(q, p)
  }

  /** What the scan knows about marker `c` once it has passed every cell
      before (i, j): `cur` is the last `c` seen so far, or still `init`. */
  ghost predicate Scanned(g: Grid, c: char, i: int, j: int, init: Pos, cur: Pos) {
    if exists q :: HoldsAt(g, c, q) && Before(q, i, j) then
      HoldsAt(g, c, cur) && Before(cur, i, j) &&
      forall q :: HoldsAt(g, c, q) && Before(q, i, j) ==> RowMajorLE(q, cur)
    else
      cur == init
  }

  lemma ScanStep(g: Grid, c: char, i: int, j: int, init: Pos, cur: Pos)
    requires 0 <= i < |g| && 0 <= j < |g[i]|
    requires Scanned(g, c, i, j, init, cur)
    ensures Scanned(g, c, i, j + 1, init, if g[i][j] == c then Pos(i, j) else cur)
  {
    if g[i][j] == c {
      assert HoldsAt(g, c, Pos(i, j)) && Before(Pos(i, j), i, j + 1);
    } else {
      forall q | HoldsAt(g, c, q) && Before(q, i, j + 1)
        ensures Before(q, i, j)
      {
        assert q != Pos(i, j);
      }
    }
  }

  lemma ScanNextRow(g: Grid, c: char, i: int, init: Pos, cur: Pos)
    requires Rectangular(g) && 0 <= i < |g|
    requires Scanned(g, c, i, |g[0]|, init, cur)
    ensures Scanned(g, c, i + 1, 0, init, cur)
  {
    forall q | HoldsAt(g, c, q)
      ensures Before(q, i, |g[0]|) <==> Before(q, i + 1, 0)
    {
    }
  }

  lemma ScanFinished(g: Grid, c: char, init: Pos, cur: Pos)
    requires Scanned(g, c, |g|, 0, init, cur)
    ensures HasMarker(g, c) ==> LastMarker(g, c, cur)
    ensures !HasMarker(g, c) ==> cur == init
  {
    if HasMarker(g, c) {
      var q :| HoldsAt(g, c, q);
      assert Before(q, |g|, 0);
    }
  }

  /** One iteration of the inner loop: an `S` cell moves the start, and
      otherwise an `E` cell moves the end. */
  function NextStart(g: Grid, i: int, j: int, start: Pos): Pos
    requires 0 <= i < |g| && 0 <= j < |g[i]|
  {
    if g[i][j] == START then Pos(i, j) else start
  }

  function NextEnd(g: Grid, i: int, j: int, end: Pos): Pos
    requires 0 <= i < |g| && 0 <= j < |g[i]|
  {
    if g[i][j] == START then end else if g[i][j] == END then Pos(i, j) else end
  }

  lemma ScanCell(g: Grid, i: int, j: int, start0: Pos, end0: Pos, start: Pos, end: Pos)
    requires 0 <= i < |g| && 0 <= j < |g[i]|
    requires Scanned(g, START, i, j, start0, start) && Scanned(g, END, i, j, end0, end)
    ensures Scanned(g, START, i, j + 1, start0, NextStart(g, i, j, start))
    ensures Scanned(g, END, i, j + 1, end0, NextEnd(g, i, j, end))
  {
    ScanStep(g, START, i, j, start0, start);
    ScanStep(g, END, i, j, end0, end);
  }

  /** One pass of the inner loop of `findStartAndEnd`, over row i. */
  method ScanRow(g: Grid, i: int, start0: Pos, end0: Pos, start: Pos, end: Pos)
    returns (start': Pos, end': Pos)
    requires Rectangular(g) && 0 <= i < |g|
    requires Scanned(g, START, i, 0, start0, start) && Scanned(g, END, i, 0, end0, end)
    ensures Scanned(g, START, i + 1, 0, start0, start') && Scanned(g, END, i + 1, 0, end0, end')
  {
    start', end' := start, end;
    var j := 0;
    while j < |g[0]|
      invariant 0 <= j <= |g[0]|
      invariant Scanned(g, START, i, j, start0, start')
      invariant Scanned(g, END, i, j, end0, end')
    {
      ScanCell(g, i, j, start0, end0, start', end');
      start', end' := NextStart(g, i, j, start'), NextEnd(g, i, j, end');
      j := j + 1;
    }
    ScanNextRow(g, START, i, start0, start');
    ScanNextRow(g, END, i, end0, end');
  }

  /** `findStartAndEnd`: a row-major scan over the whole grid. The start
      becomes the last `S` cell and the end the last `E` cell; a marker that
      does not occur leaves the previous coordinates in place, silently. */
  method FindStartAndEnd(g: Grid, start0: Pos, end0: Pos) returns (start: Pos, end: Pos)
    requires Rectangular(g)
    ensures HasMarker(g, START) ==> LastMarker(g, START, start)
    ensures !HasMarker(g, START) ==> start == start0
    ensures HasMarker(g, END) ==> LastMarker(g, END, end)
    ensures !HasMarker(g, END) ==> end == end0
  {
    start, end := start0, end0;
    var i := 0;
    while i < |g|
      invariant 0 <= i <= |g|
      invariant Scanned(g, START, i, 0, start0, start)
      invariant Scanned(g, END, i, 0, end0, end)
    {
      start, end := ScanRow(g, i, start0, end0, start, end);
      i := i + 1;
    }
    ScanFinished(g, START, start0, start);
    ScanFinished(g, END, end0, end);
  }

  /** The constructor `Labyrinth(char[][] maze)` for a non-null maze: the
      coordinate fields start at Java's default 0 before the scan. */
  method FromGrid(maze: Grid) returns (lab: Labyrinth)
    requires Rectangular(maze)
    ensures lab.maze == maze
    ensures HasMarker(maze, START) ==> LastMarker(maze, START, lab.start)
    ensures !HasMarker(maze, START) ==> lab.start == Pos(0, 0)
    ensures HasMarker(maze, END) ==> LastMarker(maze, END, lab.end)
    ensures !HasMarker(maze, END) ==> lab.end == Pos(0, 0)
  {
    var s, e := FindStartAndEnd(maze, Pos(0, 0), Pos(0, 0));
    lab := Labyrinth(maze, s, e);
  }

  /** The tail of `loadFromFile` once the lines are read: the maze is
      replaced and the endpoints rescanned, keeping the old coordinates for
      a marker the new maze lacks. */
  method Load(lab: Labyrinth, maze: Grid) returns (r: Labyrinth)
    requires Rectangular(maze)
    ensures r.maze == maze
    ensures HasMarker(maze, START) ==> LastMarker(maze, START, r.start)
    ensures !HasMarker(maze, START) ==> r.start == lab.start
    ensures HasMarker(maze, END) ==> LastMarker(maze, END, r.end)
    ensures !HasMarker(maze, END) ==> r.end == lab.end
  {
    var s, e := FindStartAndEnd(maze, lab.start, lab.end);
    r := Labyrinth(maze, s, e);
  }
}
