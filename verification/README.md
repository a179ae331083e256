# Labyrinth — a Dafny model

This project models the maze core of the two copies of the Java class
`Labyrinth`, the one in `Labyrinthe2` and the one in `labyrinthsolver`. A
maze is a rectangular grid of characters: `#` is a wall, `=` is open, `S` is
the start and `E` is the end. Each `Labyrinth` holds a maze and the start
and end coordinates. The model covers these parts:

- the endpoint scan `findStartAndEnd`;
- the recursive depth-first solver `solveDFS`/`dfs`;
- the breadth-first solver `solveBFS`/`reconstructPath`, and `isPathExists`;
- the `+` overlay computed by `printSolution`, and `calculatePathLength`;
- the two random generators. `Labyrinthe2`'s generator carves by recursive backtracking, then adds patterns, opened walls, dead ends and wall islands, then runs a connectivity safety net. `labyrinthsolver`'s generator fills the interior at random and then runs the staircase `ensurePath`.

Several methods are the same in the two copies apart from comments:
`findStartAndEnd`, `ensurePath`, `dfs`, `reconstructPath` and the overlay
part of `printSolution`. `solveDFS` and `solveBFS` are identical apart from
printing: the `Labyrinthe2` copy also computes `calculatePathLength` and
prints it (lines 334-335 and 393-394). Each method is modelled once, and
the table cites both copies.

Modelling choices:

- Grids are values (`seq<seq<char>>`); a position `Pos(x, y)` has the row first, as in the source.
- The visited matrices become sets of positions. The BFS parent map becomes a `map<Pos, Pos>` keyed by value; in Java the reconstruction works only because the same array objects flow from `next` to `current`.
- The DFS's shared visited matrix, path list and step counter become a `Search` value passed through the recursion.
- Randomness is an explicit input: `Random` is an arbitrary oracle of draws, so every property holds for every choice sequence. Each `nextInt`, `nextBoolean`, `nextDouble() < p` and `Math.random() < p` consumes one draw. Only the branch taken is modelled, not its probability. `Collections.shuffle` is Java's swap loop over `nextInt`.
- Reachability is a ghost predicate: a route of 4-adjacent steps whose cells after the first are in bounds and not `#`. The first cell is not checked, exactly as in `isPathExists` and `solveBFS`.

Three requirements the source leaves implicit are preconditions here:

- the maze is rectangular, because `cols` is taken from row 0;
- the `Labyrinthe2` generator needs at least 7 rows and 7 columns, because `nextInt(rows - 6)` throws otherwise;
- `ensurePath` needs the start above and to the left of the end, because otherwise its loop never ends.

Two behaviours of the code on unusual mazes:

- In a 3 × 3 maze from `labyrinthsolver`'s generator, `E` overwrites `S` at (1, 1): no `S` remains, and the start field keeps its old value (`PlainGenerator.GenerateRandomMaze`).
- A grid without exactly one `S` and one `E` is accepted silently: the last marker in row-major order wins, and a missing marker keeps the old coordinates (`Labyrinths.FindStartAndEnd`).

The two solvers differ in two edge cases, both reachable through a maze without `S`:

- The start cell is a wall, for example the default (0, 0) in the border. `dfs` refuses it at once and reports no path with 0 steps, while `solveBFS` explores from it anyway (`Scenarios.BlockedStart`).
- The start lies outside the maze, for example a stale start kept by `loadFromFile` after loading a smaller maze without `S`. `dfs` again reports no path with 0 steps (`DepthFirst.SolveDfs`), while `solveBFS` throws `ArrayIndexOutOfBoundsException` when it marks the start visited (`Labyrinthe2` line 378, `labyrinthsolver` line 168). The model of `solveBFS` requires the start inside the maze; see "Left out".

## Model

| member | source | states |
|---|---|---|
| Labyrinths.FindStartAndEnd | Labyrinthe2/src/main/java/org/example/labyrinthe2/Labyrinth.java:25-37 | after the row-major scan the start is the last `S` cell and the end the last `E` cell (no later cell holds that symbol); a missing symbol leaves the previous coordinates as they were, with no error (the labyrinthsolver copy, lines 21-33, is the same) |
| Labyrinths.ScanRow | Labyrinthe2/src/main/java/org/example/labyrinthe2/Labyrinth.java:27-35 | the inner `for j` loop over row i: after it, the scan invariant holds for every cell up to the end of row i, so the start is the last `S` and the end the last `E` seen so far in row-major order, or the values held before the scan when none was seen (the labyrinthsolver copy, lines 23-31, is the same) |
| Labyrinths.FromGrid | Labyrinthe2/src/main/java/org/example/labyrinthe2/Labyrinth.java:15-22 | the constructor's scan starts from Java's default (0, 0), so a maze without `S` or `E` keeps (0, 0) for that endpoint |
| Labyrinths.Load | Labyrinthe2/src/main/java/org/example/labyrinthe2/Labyrinth.java:50-56 | replacing the maze rescans it; a symbol the new maze lacks keeps the old labyrinth's coordinates |
| DepthFirst.Dfs | Labyrinthe2/src/main/java/org/example/labyrinthe2/Labyrinth.java:344-367 | a cell that is out of bounds, visited or `#` is refused with the state unchanged; success appends a simple route from (x, y) to the end through newly visited, passable, 4-adjacent, distinct cells; failure restores the path, does not visit the end, and leaves every passable neighbour of each newly visited cell visited; `steps` grows by exactly the number of newly visited cells |
| DepthFirst.Explore | Labyrinthe2/src/main/java/org/example/labyrinthe2/Labyrinth.java:359-364 | the direction loop in the order right, down, left, up: on failure every passable neighbour in the remaining directions is visited; on success the path grows by a segment starting next to the cell |
| DepthFirst.SolveDfs | Labyrinthe2/src/main/java/org/example/labyrinthe2/Labyrinth.java:324-341 | found exactly when the start is passable and the end is reachable from it; a found path is a walk from start to end through distinct passable cells; not found means an empty path; steps stay within rows × cols, and are 0 when the start is a wall or outside the maze (the labyrinthsolver copy, lines 121-158, is the same apart from printing) |
| BreadthFirst.Traverse | Labyrinthe2/src/main/java/org/example/labyrinthe2/Labyrinth.java:382-409 | the FIFO loop terminates and reports found exactly when the end is reachable from the start; when found it leaves a parent tree whose depth of the end is no more than any route's length minus one; `steps` counts dequeues: the cells dequeued before the end (all reachable, never the end) plus one when found, and when not found exactly the visited cells, which are then every cell reachable from the start; 1 ≤ steps ≤ rows × cols |
| BreadthFirst.Reverse | Labyrinthe2/src/main/java/org/example/labyrinthe2/Labyrinth.java:425 | `Collections.reverse`: element k of the result is element |s| - 1 - k of the input |
| BreadthFirst.ReconstructPath | Labyrinthe2/src/main/java/org/example/labyrinthe2/Labyrinth.java:418-427 | following parent links from the end until a cell without a parent, then reversing, yields a route from the start to the end with depth + 1 cells |
| BreadthFirst.SolveBfs | Labyrinthe2/src/main/java/org/example/labyrinthe2/Labyrinth.java:370-415 | found exactly when the end is reachable from the start; the path runs from start to end through passable 4-adjacent cells and no route between them is shorter; not found means an empty path; steps is one more than the number of reachable cells dequeued before the end when found, and the number of cells reachable from the start when not found, within 1 ≤ steps ≤ rows × cols (the labyrinthsolver copy, lines 160-211, is the same apart from printing) |
| BreadthFirst.IsPathExists | Labyrinthe2/src/main/java/org/example/labyrinthe2/Labyrinth.java:251-275 | true exactly when the end is reachable from the start through in-bounds non-`#` 4-neighbours; the start cell itself is never checked |
| Solution.Overlay | Labyrinthe2/src/main/java/org/example/labyrinthe2/Labyrinth.java:438-448 | the copy marks every path cell `+` unless it holds `S` or `E`, and every other cell keeps its symbol; the maze itself is a value and cannot change (the labyrinthsolver copy, lines 213-223, is the same) |
| Solution.MarkCell | Labyrinthe2/src/main/java/org/example/labyrinthe2/Labyrinth.java:445-447 | one step of the marking loop: the cell at the position becomes `+` unless it holds `S` or `E`, which keep their symbol, and no other cell changes (the labyrinthsolver copy, lines 219-222, is the same) |
| Solution.OverlayIdempotent | Labyrinthe2/src/main/java/org/example/labyrinthe2/Labyrinth.java:443-448 | marking the same path a second time changes nothing |
| Solution.OverlayKeepsOffPath | Labyrinthe2/src/main/java/org/example/labyrinthe2/Labyrinth.java:439-448 | an empty path copies the maze exactly, and any cell the overlay does not show as `+` shows the maze's own symbol |
| Solution.PathLength | Labyrinthe2/src/main/java/org/example/labyrinthe2/Labyrinth.java:430-435 | `calculatePathLength` is the number of cells of the path: 0 for an empty path |
| Staircase.StaircaseRoute | Labyrinthe2/src/main/java/org/example/labyrinthe2/Labyrinth.java:280-289 | once no cell of the staircase (down the start column to the end row, then right along it) is a wall, that staircase is a route from the start to the end |
| Staircase.EnsurePath | Labyrinthe2/src/main/java/org/example/labyrinthe2/Labyrinth.java:278-290 | with the start above and left of the end the loop terminates; each staircase cell not holding `S`/`E` becomes `=` and every other cell is unchanged (the labyrinthsolver copy, lines 76-88, is the same) |
| Staircase.StairedConnects | Labyrinthe2/src/main/java/org/example/labyrinthe2/Labyrinth.java:278-290 | in the grid `ensurePath` leaves, every staircase cell is passable and the end is reachable from the start |
| Choices.NextInt | Labyrinthe2/src/main/java/org/example/labyrinthe2/Labyrinth.java:151 | `nextInt(bound)` returns a value in [0, bound) and consumes one draw |
| Choices.NextIntCoversRange | Labyrinthe2/src/main/java/org/example/labyrinthe2/Labyrinth.java:151 | every value in [0, bound) is the outcome of some choice sequence, so no outcome of `nextInt` is excluded |
| Choices.NextBool | Labyrinthe2/src/main/java/org/example/labyrinthe2/Labyrinth.java:242 | `nextBoolean()` consumes exactly one draw of the oracle and leaves the oracle itself unchanged; the coins `nextDouble() < 0.5` (line 116), `nextDouble() < 0.2` (line 133) and labyrinthsolver's `Math.random() < 0.3` (line 64) are modelled the same way, by the branch they pick |
| Choices.NextBoolCoversBoth | Labyrinthe2/src/main/java/org/example/labyrinthe2/Labyrinth.java:242 | both outcomes of a coin are possible: for each boolean some oracle yields it, so no branch of a coin is ruled out |
| Choices.ShuffleFrom | Labyrinthe2/src/main/java/org/example/labyrinthe2/Labyrinth.java:93 | each swap step of `Collections.shuffle` keeps the multiset of elements and uses one draw per step |
| Choices.Shuffle | Labyrinthe2/src/main/java/org/example/labyrinthe2/Labyrinth.java:93 | `Collections.shuffle` returns a permutation of the directions |
| Carving.Carve | Labyrinthe2/src/main/java/org/example/labyrinthe2/Labyrinth.java:86-106 | `recursiveBacktracking(x, y)` from a wall room cell terminates (fewer wall rooms each call), opens (x, y), writes only `=` and only to interior cells that are odd/odd rooms or mortar cells between two open rooms, and every cell it opens is reachable from (x, y) |
| Carving.Jump | Labyrinthe2/src/main/java/org/example/labyrinthe2/Labyrinth.java:95-105 | one direction of the loop: the neighbour two cells away is carved, through the mortar cell, only when it is an interior wall; the carving invariant and reachability from (x, y) are kept |
| Patterns.IsSafeToDrawPattern | Labyrinthe2/src/main/java/org/example/labyrinthe2/Labyrinth.java:193-198 | true exactly when every cell of the box from (x, y) to (x + height, y + width) is strictly inside the border |
| Patterns.Template | Labyrinthe2/src/main/java/org/example/labyrinthe2/Labyrinth.java:157-187 | the cells each pattern writes, relative to the anchor, in the source's order (cross lines 160-164, T lines 169-172, spiral lines 177-185); every template holds the anchor, names no cell twice, and lies within one column of the anchor and from the row above it to the last row of the extent it passes to the guard (`Patterns.Extent`: 3 × 3, 2 × 3 and 4 × 4, lines 159, 168 and 176) |
| Patterns.SafePatternInside | Labyrinthe2/src/main/java/org/example/labyrinthe2/Labyrinth.java:157-188 | with an anchor at least 2 from the top and left, a pattern the guard admits lies strictly inside the border |
| Patterns.GuardAloneAdmitsBorder | Labyrinthe2/src/main/java/org/example/labyrinthe2/Labyrinth.java:158-165 | the guard alone does not cover the column left of, and the row above, the anchor: it admits a cross at (1, 1) of a 7 × 7 maze that opens the border cell (0, 1) |
| Patterns.DrawPattern | Labyrinthe2/src/main/java/org/example/labyrinthe2/Labyrinth.java:157-188 | a pattern is stamped whole (every cell of its template `=`) when the guard admits it, and not at all otherwise; only interior cells change, only to `=`, and only cells of the placed template |
| Patterns.AddComplexPatterns | Labyrinthe2/src/main/java/org/example/labyrinthe2/Labyrinth.java:150-190 | three to seven stamping attempts change only interior cells, and only to `=`; each attempt changes only the cells of its own template (see `Patterns.DrawPattern`) |
| Complexity.OpenNeighbours | Labyrinthe2/src/main/java/org/example/labyrinthe2/Labyrinth.java:118-122 | the count is at most 4 and is at least 1 exactly when some 4-neighbour is `=` |
| Complexity.OpenWallsRow | Labyrinthe2/src/main/java/org/example/labyrinthe2/Labyrinth.java:115-127 | one row of wall opening: every changed cell was an interior `#` and is now `=` next to an `=` cell |
| Complexity.OpenWalls | Labyrinthe2/src/main/java/org/example/labyrinthe2/Labyrinth.java:114-128 | wall opening over the whole interior: every changed cell was an interior `#` and is now `=` next to an `=` cell; nothing is closed |
| Complexity.RunSteps | Labyrinthe2/src/main/java/org/example/labyrinthe2/Labyrinth.java:212-214 | the cells the loop visits start next to (x, y) and each is one step in direction d beyond the last |
| Complexity.CanExtend | Labyrinthe2/src/main/java/org/example/labyrinthe2/Labyrinth.java:209-219 | the check succeeds exactly when every cell of the run is strictly inside the border and not `=` |
| Complexity.Dig | Labyrinthe2/src/main/java/org/example/labyrinthe2/Labyrinth.java:221-228 | digging a checked run opens all its cells, changes only interior cells to `=` and no cell outside the run, and leaves each dug cell reachable from (x, y) |
| Complexity.CreateLongDeadEnd | Labyrinthe2/src/main/java/org/example/labyrinthe2/Labyrinth.java:201-232 | either nothing changes or exactly one straight run of 2 to 4 cells in one of the four directions, all interior and none `=` beforehand, is opened; every opened cell is reachable from (x, y) |
| Complexity.DeadEndsRow | Labyrinthe2/src/main/java/org/example/labyrinthe2/Labyrinth.java:132-136 | one row of the dead-end pass changes only interior cells, and only to `=` |
| Complexity.AddDeadEnds | Labyrinthe2/src/main/java/org/example/labyrinthe2/Labyrinth.java:131-137 | the dead-end pass changes only interior cells, and only to `=` |
| Complexity.PlaceIsland | Labyrinthe2/src/main/java/org/example/labyrinthe2/Labyrinth.java:240-246 | an island walls its anchor and, on the coin, the cells below and right of it; nothing else changes and all three cells are interior |
| Complexity.AddWallIslands | Labyrinthe2/src/main/java/org/example/labyrinthe2/Labyrinth.java:235-248 | three to seven island attempts change only interior cells, and only to `#`; every cell walled up was `=` in the input or lies just below or just right of an input `=` cell, as each attempt needs an open anchor |
| Complexity.SafetyNet | Labyrinthe2/src/main/java/org/example/labyrinthe2/Labyrinth.java:143-146 | a maze whose corners (1, 1) and (rows - 2, cols - 2) are connected is left alone; otherwise the staircase between them is opened; either way they end up connected and only interior cells change, to `=` |
| Complexity.AddComplexity | Labyrinthe2/src/main/java/org/example/labyrinthe2/Labyrinth.java:109-147 | the five passes change only interior cells, each to `#` or `=`, so the border is kept, and the corners end up connected |
| Generator.Build | Labyrinthe2/src/main/java/org/example/labyrinthe2/Labyrinth.java:63-76 | the all-wall fill, the carving from (1, 1) and `addComplexity` leave a maze of `#`/`=` cells with an all-`#` border whose corners are connected |
| Generator.AllWalls | Labyrinthe2/src/main/java/org/example/labyrinthe2/Labyrinth.java:66-70 | the fill before carving: a rows × cols grid in which every cell is `#` |
| Generator.PlaceMarkers | Labyrinthe2/src/main/java/org/example/labyrinthe2/Labyrinth.java:79-80 | placing `S` at (1, 1) and `E` at (rows - 2, cols - 2) leaves exactly one of each, changes no other cell, and walls no cell, so the corners stay connected |
| Generator.GenerateRandomMaze | Labyrinthe2/src/main/java/org/example/labyrinthe2/Labyrinth.java:60-83 | for rows, cols ≥ 7: the border is all `#`; `S` is at (1, 1) and `E` at (rows - 2, cols - 2), and these are the start and end fields; every other cell is `#` or `=`; the end is reachable from the start |
| PlainGenerator.FillRow | labyrinthsolver/src/main/java/org/example/labyrinthsolver/Labyrinth.java:60-66 | one row of the fill: border cells `#`, each interior cell decided by its own draw in row-major order |
| PlainGenerator.Fill | labyrinthsolver/src/main/java/org/example/labyrinthsolver/Labyrinth.java:59-67 | the fill makes every border cell `#` and every interior cell `#` or `=` on its own draw, with one draw per interior cell |
| PlainGenerator.GeneratedShape | labyrinthsolver/src/main/java/org/example/labyrinthsolver/Labyrinth.java:69-71 | after the markers and `ensurePath`, `E` sits only at (rows - 2, cols - 2), `S` only at (1, 1) unless the maze is 3 × 3 (then there is no `S`), and the border is all `#` |
| PlainGenerator.GenerateRandomMaze | labyrinthsolver/src/main/java/org/example/labyrinthsolver/Labyrinth.java:54-74 | for rows, cols ≥ 3 the maze is cell for cell the fill with `S`, `E` and the opened staircase on top; the border is all `#`; (rows - 2, cols - 2) is reachable from (1, 1); the end field is that corner; the start field is (1, 1) unless the maze is 3 × 3, where `E` overwrites `S` and the start field keeps its stale value |
| Scenarios.SampleBfs | Labyrinthe2/src/main/java/org/example/labyrinthe2/Labyrinth.java:370-415 | on a fixed 5 × 6 maze the breadth-first search returns a 7-cell path from `S` to `E`, the Manhattan lower bound |
| Scenarios.SampleDfs | Labyrinthe2/src/main/java/org/example/labyrinthe2/Labyrinth.java:324-367 | on the same maze the depth-first search succeeds with a path of at least 7 cells |
| Scenarios.BlockedStart | labyrinthsolver/src/main/java/org/example/labyrinthsolver/Labyrinth.java:139-174 | in a maze without `S` the start stays at the wall (0, 0): the depth-first search refuses it with 0 steps and an empty path, while the breadth-first search never checks its first cell and finds a 3-cell path |

## Left out

- Console output and timing: `System.out.println`, `System.nanoTime` and the `timeMs` field of `SolveResult`.
- The file reading of `loadFromFile`. `Labyrinths.Load` takes the lines as a rectangular grid, because file I/O cannot be modelled.
- The JavaFX views and `Main` classes of both programs, including `darkenColor`: these are user interface, not maze logic.
- Probabilities: the coins `nextDouble() < 0.5`, `< 0.2` and `Math.random() < 0.3` are modelled only by the branch they choose.
- Java `int` overflow: the coordinates and counters are unbounded integers. No maze that fits in memory comes close to the limits.
- Stack depth: `dfs` and `recursiveBacktracking` may overflow the Java stack on large mazes; the model's recursion has no such limit.
- The exceptions for too-small sizes and ragged rows: they are preconditions instead.
- Carving.Carve: states that carving keeps to odd/odd rooms and mortar cells and keeps what it opens connected; it does not state that the carved maze is a spanning tree (a perfect maze).
- Complexity.OpenWalls: the open neighbour it states is open in the final grid, not necessarily at the moment the wall was opened.
- Patterns.AddComplexPatterns: states only that the pass changes interior cells to `=`; that each attempt changes only the cells of its own template is stated per attempt by `Patterns.DrawPattern`, not collected over the whole pass.
- Complexity.OpenWallsRow: the open neighbour it states is open in the final grid of the row, not necessarily at the moment the wall was opened.
- BreadthFirst.SolveBfs: requires the start inside the maze. For a start outside it Java throws `ArrayIndexOutOfBoundsException` (`Labyrinthe2` line 378, `labyrinthsolver` line 168); exceptions are not modelled, so that case is excluded rather than given an error result.
