/** Both solvers on a fixed 5 × 6 maze whose start sits in the left border:
    the breadth-first search returns a shortest path of 7 cells, and the
    depth-first search also succeeds, with at least as many cells. */
module Scenarios {
  import opened Grids
  import opened Labyrinths
  import opened DepthFirst
  import opened BreadthFirst

  const Sample: Grid := ["######", "S=#==#", "#=#=##", "#===E#", "######"]

  lemma SampleMarkers()
    ensures Rectangular(Sample)
    ensures HasMarker(Sample, START) && forall q :: HoldsAt(Sample, START, q) ==> q == Pos(1, 0)
    ensures HasMarker(Sample, END) && forall q :: HoldsAt(Sample, END, q) ==> q == Pos(3, 4)
  {
    assert HoldsAt(Sample, START, Pos(1, 0)) && HoldsAt(Sample, END, Pos(3, 4));
    forall q | HoldsAt(Sample, START, q) || HoldsAt(Sample, END, q)
      ensures HoldsAt(Sample, START, q) ==> q == Pos(1, 0)
      ensures HoldsAt(Sample, END, q) ==> q == Pos(3, 4)
    {
      assert Sample[q.x] in {"######", "S=#==#", "#=#=##", "#===E#"};
    }
  }

  /** The shortest route: down from the start's
      neighbour and along the bottom corridor. */
  lemma SampleRoute() returns (w: seq<Pos>)
    ensures Route(Sample, w) && |w| == 7 && w[0] == Pos(1, 0) && w[6] == Pos(3, 4)
    ensures Passable(Sample, Pos(1, 0)) && Reachable(Sample, Pos(1, 0), Pos(3, 4))
  {
    w := [Pos(1, 0), Pos(1, 1), Pos(2, 1), Pos(3, 1), Pos(3, 2), Pos(3, 3), Pos(3, 4)];
    assert Passable(Sample, Pos(1, 0)) && Passable(Sample, Pos(1, 1)) && Passable(Sample, Pos(2, 1));
    assert Passable(Sample, Pos(3, 1)) && Passable(Sample, Pos(3, 2));
    assert Passable(Sample, Pos(3, 3)) && Passable(Sample, Pos(3, 4));
    forall i | 1 <= i < |w| ensures Passable(Sample, w[i]) {
      assert i == 1 || i == 2 || i == 3 || i == 4 || i == 5 || i == 6;
    }
    forall i | 0 <= i < |w| - 1 ensures Adjacent(w[i], w[i + 1]) {
      assert i == 0 || i == 1 || i == 2 || i == 3 || i == 4 || i == 5;
    }
    assert Route(Sample, w);
  }

  /** Loading the sample finds its markers. */
  method LoadSample() returns (lab: Labyrinth)
    ensures lab == Labyrinth(Sample, Pos(1, 0), Pos(3, 4))
  {
    SampleMarkers();
    lab := FromGrid(Sample);
  }

  /** The breadth-first search returns a shortest path: 7 cells, as the
      Manhattan distance from (1, 0) to (3, 4) demands. */
  method SampleBfs() returns (bfs: SolveResult)
    ensures bfs.found && |bfs.path| == 7 && bfs.path[0] == Pos(1, 0) && bfs.path[6] == Pos(3, 4)
  {
    var lab := LoadSample();
    var w := SampleRoute();
    ghost var dequeued;
    bfs, dequeued := SolveBfs(lab);
    RouteLength(Sample, bfs.path);
  }

  /** The depth-first search succeeds too, with a path no shorter. */
  method SampleDfs() returns (dfs: SolveResult)
    ensures dfs.found && |dfs.path| >= 7
  {
    var lab := LoadSample();
    var w := SampleRoute();
    SampleMarkers();
    dfs := SolveDfs(lab);
    RouteLength(Sample, dfs.path);
  }

  /** A maze without `S`: the start keeps the constructor's (0, 0), a wall. */
  const Blocked: Grid := ["#=E"]

  /** There the solvers disagree: the depth-first search refuses the wall at
      once and counts nothing, while the breadth-first search never checks
      its first cell and walks from it to the end. */
  method BlockedStart() returns (lab: Labyrinth, bfs: SolveResult, dfs: SolveResult)
    ensures lab.start == Pos(0, 0) && lab.end == Pos(0, 2)
    ensures bfs.found && |bfs.path| == 3
    ensures !dfs.found && dfs.steps == 0 && dfs.path == []
  {
    assert Rectangular(Blocked);
    assert !HoldsAt(Blocked, START, Pos(0, 0)) && !HoldsAt(Blocked, START, Pos(0, 1)) && !HoldsAt(Blocked, START, Pos(0, 2));
    assert HoldsAt(Blocked, END, Pos(0, 2));
    lab := FromGrid(Blocked);
    var w := [Pos(0, 0), Pos(0, 1), Pos(0, 2)];
    assert Route(Blocked, w);
    ghost var dequeued;
    bfs, dequeued := SolveBfs(lab);
    RouteLength(Blocked, bfs.path);
    dfs := SolveDfs(lab);
  }
}
