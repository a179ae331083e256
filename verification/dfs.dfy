/** The recursive depth-first solver `dfs` / `solveDFS`. `dfs` is the same
    apart from comments in both copies of the class; `solveDFS` is identical
    apart from printing (the `Labyrinthe2` copy also prints the path length
    from `calculatePathLength`). The mutable visited matrix, path list and
    step counter become a `Search` value threaded through the recursion;
    the loop over the four directions becomes `Explore`. */
module DepthFirst {
  import opened Grids
  import opened Labyrinths

  /** The solver's scratch state: the cells marked in the visited matrix,
      the path list, and `steps[0]`. */
  datatype Search = Search(visited: set<Pos>, path: seq<Pos>, steps: nat)

  /** What a call of `dfs` returns, with the scratch state it leaves behind. */
  datatype Return = Return(found: bool, st: Search)

  /** `seg` runs from `a` to `b` through passable, 4-adjacent, pairwise
      distinct cells, all of them in `news`. */
  ghost predicate Segment(g: Grid, seg: seq<Pos>, a: Pos, b: Pos, news: set<Pos>) {
    && |seg| >= 1 && seg[0] == a && seg[|seg| - 1] == b
    && Walk(g, seg) && Distinct(seg)
    && forall k :: 0 <= k < |seg| ==> seg[k] in news
  }

  /** Every passable neighbour of a cell of `news` is in `all`. */
  ghost predicate ClosedOver(g: Grid, news: set<Pos>, all: set<Pos>) {
    forall q, d :: q in news && 0 <= d < 4 && Passable(g, Neighbour(q, d)) ==> Neighbour(q, d) in all
  }

  /** Prepending the current cell to the segment found from a neighbour. */
  lemma SegmentCons(g: Grid, p: Pos, seg: seq<Pos>, b: Pos, news: set<Pos>, news': set<Pos>)
    requires |seg| >= 1 && Segment(g, seg, seg[0], b, news)
    requires Passable(g, p) && Adjacent(p, seg[0]) && p !in news
    requires news + {p} <= news'
    ensures Segment(g, [p] + seg, p, b, news')
  {
    var w := [p] + seg;
    forall i | 1 <= i < |w| ensures Passable(g, w[i]) { assert w[i] == seg[i - 1]; }
    forall i | 0 <= i < |w| - 1 ensures Adjacent(w[i], w[i + 1]) {
      if i > 0 { assert w[i] == seg[i - 1] && w[i + 1] == seg[i]; }
    }
    forall i, j | 0 <= i < j < |w| ensures w[i] != w[j] {
      if i == 0 { assert w[j] == seg[j - 1] && seg[j - 1] in news; }
      else { assert w[i] == seg[i - 1] && w[j] == seg[j - 1]; }
    }
  }

  lemma SegmentWiden(g: Grid, seg: seq<Pos>, a: Pos, b: Pos, news: set<Pos>, news': set<Pos>)
    requires Segment(g, seg, a, b, news) && news <= news'
    ensures Segment(g, seg, a, b, news')
  {
  }

  /** `dfs(x, y, visited, path, steps)` at p = (x, y), with the end fixed. */
  function Dfs(g: Grid, end: Pos, p: Pos, s: Search): (r: Return)
    requires Rectangular(g) && s.visited <= Cells(g)
    ensures s.visited <= r.st.visited <= Cells(g)
    ensures r.st.steps == s.steps + |r.st.visited - s.visited|
    // an out-of-bounds, visited or wall cell is refused with nothing changed
    ensures !Passable(g, p) || p in s.visited ==> r == Return(false, s)
    ensures Passable(g, p) ==> p in r.st.visited
    // failure restores the path and leaves every passable neighbour of a newly visited cell visited
    ensures !r.found ==> r.st.path == s.path
    ensures !r.found ==> end !in r.st.visited - s.visited
    ensures !r.found ==> ClosedOver(g, r.st.visited - s.visited, r.st.visited)
    // success appends a simple route from p to the end made of newly visited cells
    ensures r.found ==>
      && |s.path| < |r.st.path| && r.st.path[..|s.path|] == s.path
      && Segment(g, r.st.path[|s.path|..], p, end, r.st.visited - s.visited)
    decreases |Cells(g) - s.visited|, 0, 0
  {
    if !InBounds(g, p) || p in s.visited || g[p.x][p.y] == WALL then Return(false, s)
    else
      var s1 := Search(s.visited + {p}, s.path + [p], s.steps + 1);
      assert p in Cells(g);
      MarkOne(Cells(g), s.visited, p);
      assert (s1.visited - s.visited) == {p};
      if p == end then
        assert s1.path[|s.path|..] == [p];
        Return(true, s1)
      else
        var e := Explore(g, end, p, 0, s1);
        DiffChain(s.visited, s1.visited, e.st.visited);
        if e.found then
          DfsFound(g, end, p, s, e);
          e
        else
          DfsFails(g, end, p, s, e);
          Return(false, Search(e.st.visited, e.st.path[..|e.st.path| - 1], e.st.steps))
  }

  /** The success case of `dfs` after its loop found the end from a neighbour. */
  lemma DfsFound(g: Grid, end: Pos, p: Pos, s: Search, e: Return)
    requires Passable(g, p) && p !in s.visited
    requires s.visited + {p} <= e.st.visited
    requires |s.path + [p]| < |e.st.path| && e.st.path[..|s.path + [p]|] == s.path + [p]
    requires Adjacent(p, e.st.path[|s.path + [p]|])
    requires Segment(g, e.st.path[|s.path + [p]|..], e.st.path[|s.path + [p]|], end,
                     e.st.visited - (s.visited + {p}))
    ensures |s.path| < |e.st.path| && e.st.path[..|s.path|] == s.path
    ensures Segment(g, e.st.path[|s.path|..], p, end, e.st.visited - s.visited)
  {
    var n := |s.path|;
    var seg := e.st.path[n + 1..];
    SegmentCons(g, p, seg, end, e.st.visited - (s.visited + {p}), e.st.visited - s.visited);
    assert e.st.path[n] == (s.path + [p])[n] == p;
    assert e.st.path[n..] == [p] + seg;
    assert e.st.path[..n] == (e.st.path[..n + 1])[..n];
  }

  /** The failure case of `dfs`: p joins the newly visited cells with all its
      passable neighbours visited, and popping p restores the path. */
  lemma DfsFails(g: Grid, end: Pos, p: Pos, s: Search, e: Return)
    requires p != end && p !in s.visited
    requires s.visited + {p} <= e.st.visited
    requires e.st.path == s.path + [p]
    requires end !in e.st.visited - (s.visited + {p})
    requires ClosedOver(g, e.st.visited - (s.visited + {p}), e.st.visited)
    requires forall d :: 0 <= d < 4 && Passable(g, Neighbour(p, d)) ==> Neighbour(p, d) in e.st.visited
    ensures e.st.path[..|e.st.path| - 1] == s.path
    ensures end !in e.st.visited - s.visited
    ensures ClosedOver(g, e.st.visited - s.visited, e.st.visited)
  {
    assert e.st.visited - s.visited == (e.st.visited - (s.visited + {p})) + {p};
  }

  /** The `for (int[] dir : directions)` loop of `dfs` at cell p, from direction i on. */
  function Explore(g: Grid, end: Pos, p: Pos, i: int, s: Search): (r: Return)
    requires Rectangular(g) && s.visited <= Cells(g) && 0 <= i <= 4
    ensures s.visited <= r.st.visited <= Cells(g)
    ensures r.st.steps == s.steps + |r.st.visited - s.visited|
    ensures !r.found ==> r.st.path == s.path
    ensures !r.found ==> end !in r.st.visited - s.visited
    ensures !r.found ==> ClosedOver(g, r.st.visited - s.visited, r.st.visited)
    ensures !r.found ==>
      forall d :: i <= d < 4 && Passable(g, Neighbour(p, d)) ==> Neighbour(p, d) in r.st.visited
    ensures r.found ==>
      && |s.path| < |r.st.path| && r.st.path[..|s.path|] == s.path
      && Adjacent(p, r.st.path[|s.path|])
      && Segment(g, r.st.path[|s.path|..], r.st.path[|s.path|], end, r.st.visited - s.visited)
    decreases |Cells(g) - s.visited|, 1, 4 - i
  {
    if i == 4 then Return(false, s)
    else
      var q := Neighbour(p, i);
      NeighbourIsAdjacent(p, i);
      var r1 := Dfs(g, end, q, s);
      if r1.found then r1
      else
        FewerUnvisited(Cells(g), s.visited, r1.st.visited);
        var r2 := Explore(g, end, p, i + 1, r1.st);
        DiffChain(s.visited, r1.st.visited, r2.st.visited);
        if r2.found then
          SegmentWiden(g, r2.st.path[|s.path|..], r2.st.path[|s.path|], end,
                       r2.st.visited - r1.st.visited, r2.st.visited - s.visited);
          r2
        else
          ExploreFails(g, end, p, i, s, r1.st, r2.st);
          r2
  }

  /** The failure case of the direction loop: the neighbour in direction i
      failed, and so did the directions after it. */
  lemma ExploreFails(g: Grid, end: Pos, p: Pos, i: int, s: Search, s1: Search, s2: Search)
    requires 0 <= i < 4 && s.visited <= s1.visited <= s2.visited
    requires end !in s1.visited - s.visited && end !in s2.visited - s1.visited
    requires ClosedOver(g, s1.visited - s.visited, s1.visited)
    requires ClosedOver(g, s2.visited - s1.visited, s2.visited)
    requires Passable(g, Neighbour(p, i)) ==> Neighbour(p, i) in s1.visited
    requires forall d :: i + 1 <= d < 4 && Passable(g, Neighbour(p, d)) ==> Neighbour(p, d) in s2.visited
    ensures end !in s2.visited - s.visited
    ensures ClosedOver(g, s2.visited - s.visited, s2.visited)
    ensures forall d :: i <= d < 4 && Passable(g, Neighbour(p, d)) ==> Neighbour(p, d) in s2.visited
  {
    assert s2.visited - s.visited == (s2.visited - s1.visited) + (s1.visited - s.visited);
  }

  /** `solveDFS` without the timing and printing: the search from the start
      with an empty visited matrix, path and counter. */
  function SolveDfs(lab: Labyrinth): (r: SolveResult)
    requires Rectangular(lab.maze)
    ensures r.found ==> && |r.path| >= 1 && r.path[0] == lab.start && r.path[|r.path| - 1] == lab.end
                        && Walk(lab.maze, r.path) && Distinct(r.path)
    ensures !r.found ==> r.path == []
    ensures r.steps <= |lab.maze| * Cols(lab.maze)
    // complete: the search fails exactly when the start is blocked or the end is out of reach
    ensures r.found <==> Passable(lab.maze, lab.start) && Reachable(lab.maze, lab.start, lab.end)
    // a blocked start is refused before anything is counted
    ensures !Passable(lab.maze, lab.start) ==> r.steps == 0
  {
    var g := lab.maze;
    var o := Dfs(g, lab.end, lab.start, Search({}, [], 0));
    BoxCount(|g|, Cols(g));
    assert o.st.visited - {} == o.st.visited;
    SubsetSize(o.st.visited, Cells(g));
    if o.found then
      assert o.st.path[0..] == o.st.path;
      assert Route(g, o.st.path);
      SolveResult(o.st.path, o.st.steps, true)
    else
      if Passable(g, lab.start) then
        ClosedSeparates(g, o.st.visited, lab.start, lab.end);
        SolveResult(o.st.path, o.st.steps, false)
      else
        SolveResult(o.st.path, o.st.steps, false)
  }
}
