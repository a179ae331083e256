/** The pure part of `printSolution` (the same in both copies of the class):
    a row-by-row copy of the maze in which the cells of a path are marked
    `+`, except cells holding `S` or `E`. The printing is left out; and
    since grids are values, the copy can never alias `maze`. Also
    `calculatePathLength`. */
module Solution {
  import opened Grids
  import opened Edits

  /** One iteration of the `for (int[] pos : path)` loop: the cell at p
      becomes `+` unless it holds `S` or `E`, and no other cell changes. */
  function MarkCell(g: Grid, p: Pos): (r: Grid)
    requires InBounds(g, p)
    ensures |r| == |g| && forall i :: 0 <= i < |g| ==> |r[i]| == |g[i]|
    ensures r[p.x][p.y] == if g[p.x][p.y] == START || g[p.x][p.y] == END then g[p.x][p.y] else MARK
    ensures forall i, j :: 0 <= i < |g| && 0 <= j < |g[i]| && Pos(i, j) != p ==> r[i][j] == g[i][j]
  {
    if g[p.x][p.y] != START && g[p.x][p.y] != END then g[p.x := g[p.x][p.y := MARK]] else g
  }

  /** What the overlay shows at (x, y). */
  function Shown(g: Grid, path: seq<Pos>, x: int, y: int): char
    requires 0 <= x < |g| && 0 <= y < |g[x]|
  {
    if Pos(x, y) in path && g[x][y] != START && g[x][y] != END then MARK else g[x][y]
  }

  /** `solvedMaze` after the marking loop, which visits the path in order.
      Cells on the path that are not `S`/`E` end up `+`; every other cell,
      including `S`/`E` cells on the path, keeps its symbol. */
  function Overlay(g: Grid, path: seq<Pos>): (r: Grid)
    requires AllInBounds(g, path)
    ensures |r| == |g| && forall i :: 0 <= i < |g| ==> |r[i]| == |g[i]|
    ensures forall x, y :: 0 <= x < |g| && 0 <= y < |g[x]| ==> r[x][y] == Shown(g, path, x, y)
    decreases |path|
  {
    if path == [] then g
    else
      var h := MarkCell(g, path[0]);
      assert AllInBounds(h, path[1..]) by {
        forall k | 0 <= k < |path[1..]| ensures InBounds(h, path[1..][k]) {
          assert path[1..][k] == path[k + 1];
        }
      }
      var r := Overlay(h, path[1..]);
      assert forall x, y :: 0 <= x < |g| && 0 <= y < |g[x]| ==>
        (Pos(x, y) in path <==> Pos(x, y) == path[0] || Pos(x, y) in path[1..]);
      r
  }

  /** Overlaying the same path twice changes nothing more. */
  lemma OverlayIdempotent(maze: Grid, path: seq<Pos>)
    requires AllInBounds(maze, path)
    ensures AllInBounds(Overlay(maze, path), path)
    ensures Overlay(Overlay(maze, path), path) == Overlay(maze, path)
  {
    var once := Overlay(maze, path);
    var twice := Overlay(once, path);
    forall x | 0 <= x < |maze| ensures twice[x] == once[x] {
      forall y | 0 <= y < |maze[x]| ensures twice[x][y] == once[x][y] {
        assert twice[x][y] == Shown(once, path, x, y);
      }
    }
  }

  /** The overlay only ever adds `+`: every other symbol it shows is the maze's own. */
  lemma OverlayKeepsOffPath(maze: Grid, path: seq<Pos>)
    requires AllInBounds(maze, path)
    ensures Overlay(maze, []) == maze
    ensures forall x, y :: 0 <= x < |maze| && 0 <= y < |maze[x]| && Overlay(maze, path)[x][y] != MARK ==>
      Overlay(maze, path)[x][y] == maze[x][y]
  {
  }

  /** `calculatePathLength`: 0 for an empty path, otherwise its number of cells. */
  function PathLength(path: seq<Pos>): (n: nat)
    ensures n == |path|
  {
    if |path| == 0 then 0 else |path|
  }
}
