/** The breadth-first traversal shared by `solveBFS` (both copies of the
    class) and the generator's reachability check `isPathExists`, plus
    `reconstructPath`. The visited matrix becomes a set of positions and the
    identity-keyed parent `HashMap<int[], int[]>` a map keyed by position
    value. Ghost state: `depth`, the number of parent links from each
    visited cell back to the start, and `done`, the cells already dequeued. */
module BreadthFirst {
  import opened Grids
  import opened Labyrinths

  datatype Option<T> = None | Some(value: T)

  function Elems(q: seq<Pos>): set<Pos> {
    set k | 0 <= k < |q| :: q[k]
  }

  /** The parent links form a tree rooted at the start: every visited cell
      other than the start has a visited, 4-adjacent parent one level
      shallower, and is itself passable. */
  ghost predicate ParentTree(g: Grid, start: Pos, visited: set<Pos>, parent: map<Pos, Pos>, depth: map<Pos, nat>) {
    && start in visited && depth.Keys == visited && depth[start] == 0
    && parent.Keys == visited - {start}
    && forall v :: v in parent ==>
         && parent[v] in visited && Adjacent(parent[v], v) && Passable(g, v)
         && depth[v] == depth[parent[v]] + 1
  }

  /** Visited = dequeued + queued, and the queue repeats nothing. */
  ghost predicate Queued(queue: seq<Pos>, visited: set<Pos>, done: set<Pos>) {
    && visited == done + Elems(queue)
    && (forall k :: 0 <= k < |queue| ==> queue[k] !in done)
    && Distinct(queue)
  }

  /** The FIFO discipline: queued depths are non-decreasing and lie in
      [lo, lo + 1], and no dequeued cell is deeper than lo. */
  ghost predicate Layered(queue: seq<Pos>, depth: map<Pos, nat>, done: set<Pos>, lo: nat) {
    && (forall k :: 0 <= k < |queue| ==> queue[k] in depth && lo <= depth[queue[k]] <= lo + 1)
    && (forall i, j :: 0 <= i < j < |queue| && queue[i] in depth && queue[j] in depth ==>
          depth[queue[i]] <= depth[queue[j]])
    && (forall u :: u in done ==> u in depth && depth[u] <= lo)
  }

  /** The first n directions of u have been looked at: each passable
      neighbour there is visited at most one level deeper than u. */
  ghost predicate ExpandedBelow(g: Grid, u: Pos, n: int, visited: set<Pos>, depth: map<Pos, nat>) {
    && u in depth
    && forall d :: 0 <= d < n && d < 4 && Passable(g, Neighbour(u, d)) ==>
         Neighbour(u, d) in visited && Neighbour(u, d) in depth && depth[Neighbour(u, d)] <= depth[u] + 1
  }

  /** The invariant of the `while (!queue.isEmpty())` loop. */
  ghost predicate Frontier(g: Grid, start: Pos, end: Pos, queue: seq<Pos>, visited: set<Pos>,
                           parent: map<Pos, Pos>, depth: map<Pos, nat>, done: set<Pos>, lo: nat) {
    && visited <= Cells(g)
    && ParentTree(g, start, visited, parent, depth)
    && Queued(queue, visited, done)
    && Layered(queue, depth, done, lo)
    && (forall u :: u in done ==> ExpandedBelow(g, u, 4, visited, depth))
    && end !in done
  }

  /** The invariant of the loop over the four directions of the dequeued cell `cur`. */
  ghost predicate Expanding(g: Grid, start: Pos, end: Pos, cur: Pos, n: int, queue: seq<Pos>, visited: set<Pos>,
                            parent: map<Pos, Pos>, depth: map<Pos, nat>, done: set<Pos>) {
    && visited <= Cells(g)
    && ParentTree(g, start, visited, parent, depth)
    && Queued(queue, visited, done)
    && cur in done && cur in depth
    && Layered(queue, depth, done, depth[cur])
    && (forall u :: u in done && u != cur ==> ExpandedBelow(g, u, 4, visited, depth))
    && ExpandedBelow(g, cur, n, visited, depth)
    && end !in done
  }

  lemma ElemsTail(q: seq<Pos>)
    requires |q| >= 1
    ensures Elems(q) == {q[0]} + Elems(q[1..])
  {
    forall x | x in Elems(q) ensures x in {q[0]} + Elems(q[1..]) {
      var k :| 0 <= k < |q| && q[k] == x;
      if k > 0 { assert q[1..][k - 1] == x; }
    }
  }

  lemma ElemsSnoc(q: seq<Pos>, x: Pos)
    ensures Elems(q + [x]) == Elems(q) + {x}
  {
    assert (q + [x])[|q|] == x;
    forall y | y in Elems(q) ensures y in Elems(q + [x]) {
      var k :| 0 <= k < |q| && q[k] == y;
      assert (q + [x])[k] == y;
    }
  }

  lemma InitialFrontier(g: Grid, start: Pos, end: Pos)
    requires Rectangular(g) && InBounds(g, start)
    ensures Frontier(g, start, end, [start], {start}, map[], map[start := 0], {}, 0)
  {
    CellsAreInBounds(g, start);
    assert [start][0] == start;
    assert Elems([start]) == {start};
  }

  /** Dequeuing a cell other than the end starts its expansion. */
  lemma Dequeue(g: Grid, start: Pos, end: Pos, queue: seq<Pos>, visited: set<Pos>,
                parent: map<Pos, Pos>, depth: map<Pos, nat>, done: set<Pos>, lo: nat)
    requires Frontier(g, start, end, queue, visited, parent, depth, done, lo)
    requires |queue| >= 1 && queue[0] != end
    ensures Expanding(g, start, end, queue[0], 0, queue[1..], visited, parent, depth, done + {queue[0]})
  {
    var cur := queue[0];
    var rest := queue[1..];
    ElemsTail(queue);
    forall k | 0 <= k < |rest| ensures rest[k] !in done + {cur} {
      assert rest[k] == queue[k + 1];
    }
    forall k | 0 <= k < |rest| ensures rest[k] in depth && depth[cur] <= depth[rest[k]] <= depth[cur] + 1 {
      assert rest[k] == queue[k + 1];
    }
    forall i, j | 0 <= i < j < |rest| ensures rest[i] != rest[j] {
      assert rest[i] == queue[i + 1] && rest[j] == queue[j + 1];
    }
    forall i, j | 0 <= i < j < |rest| && rest[i] in depth && rest[j] in depth
      ensures depth[rest[i]] <= depth[rest[j]]
    {
      assert rest[i] == queue[i + 1] && rest[j] == queue[j + 1];
    }
  }

  /** A direction whose neighbour is out of bounds, visited or a wall. */
  lemma ExpandSkip(g: Grid, start: Pos, end: Pos, cur: Pos, n: int, queue: seq<Pos>, visited: set<Pos>,
                   parent: map<Pos, Pos>, depth: map<Pos, nat>, done: set<Pos>)
    requires 0 <= n < 4
    requires Expanding(g, start, end, cur, n, queue, visited, parent, depth, done)
    requires !InBounds(g, Neighbour(cur, n)) || Neighbour(cur, n) in visited ||
             g[Neighbour(cur, n).x][Neighbour(cur, n).y] == WALL
    ensures Expanding(g, start, end, cur, n + 1, queue, visited, parent, depth, done)
  {
    var q := Neighbour(cur, n);
    if Passable(g, q) {
      assert q in visited;
      if q in done {
        assert depth[q] <= depth[cur];
      } else {
        assert q in Elems(queue);
        var k :| 0 <= k < |queue| && queue[k] == q;
      }
    }
  }

  /** A direction whose neighbour is enqueued, marked and given `cur` as parent. */
  lemma ExpandAdd(g: Grid, start: Pos, end: Pos, cur: Pos, n: int, queue: seq<Pos>, visited: set<Pos>,
                  parent: map<Pos, Pos>, depth: map<Pos, nat>, done: set<Pos>)
    requires Rectangular(g) && 0 <= n < 4
    requires Expanding(g, start, end, cur, n, queue, visited, parent, depth, done)
    requires Passable(g, Neighbour(cur, n)) && Neighbour(cur, n) !in visited
    ensures Expanding(g, start, end, cur, n + 1, queue + [Neighbour(cur, n)], visited + {Neighbour(cur, n)},
                      parent[Neighbour(cur, n) := cur], depth[Neighbour(cur, n) := depth[cur] + 1], done)
  {
    var q := Neighbour(cur, n);
    var queue', visited' := queue + [q], visited + {q};
    var parent', depth' := parent[q := cur], depth[q := depth[cur] + 1];
    CellsAreInBounds(g, q);
    NeighbourIsAdjacent(cur, n);
    ElemsSnoc(queue, q);
    assert ParentTree(g, start, visited', parent', depth');
    assert Queued(queue', visited', done) by {
      forall i, j | 0 <= i < j < |queue'| ensures queue'[i] != queue'[j] {
        if j == |queue| { assert queue'[i] in Elems(queue); }
      }
    }
    assert Layered(queue', depth', done, depth[cur]);
    forall u | u in done && u != cur ensures ExpandedBelow(g, u, 4, visited', depth') {
      assert ExpandedBelow(g, u, 4, visited, depth);
    }
    assert ExpandedBelow(g, cur, n + 1, visited', depth');
  }

  /** All four directions looked at: `cur` counts as dequeued and expanded. */
  lemma ExpandFinished(g: Grid, start: Pos, end: Pos, cur: Pos, queue: seq<Pos>, visited: set<Pos>,
                       parent: map<Pos, Pos>, depth: map<Pos, nat>, done: set<Pos>)
    requires Expanding(g, start, end, cur, 4, queue, visited, parent, depth, done)
    ensures cur in depth && Frontier(g, start, end, queue, visited, parent, depth, done, depth[cur])
  {
  }

  /** With the queue exhausted, the dequeued cells are closed under passable
      neighbours, contain the start and miss the end. */
  lemma ExhaustedUnreachable(g: Grid, start: Pos, end: Pos, visited: set<Pos>,
                             parent: map<Pos, Pos>, depth: map<Pos, nat>, done: set<Pos>, lo: nat)
    requires Frontier(g, start, end, [], visited, parent, depth, done, lo)
    ensures !Reachable(g, start, end)
  {
    assert Elems([]) == {};
    forall q, i | q in done && 0 <= i < 4 && Passable(g, Neighbour(q, i)) ensures Neighbour(q, i) in done {
      assert ExpandedBelow(g, q, 4, visited, depth);
    }
    ClosedSeparates(g, done, start, end);
  }

  /** With the queue exhausted nothing is left queued, and the dequeued
      cells are exactly the cells reachable from the start. */
  lemma ExhaustedCovers(g: Grid, start: Pos, end: Pos, visited: set<Pos>,
                        parent: map<Pos, Pos>, depth: map<Pos, nat>, done: set<Pos>, lo: nat)
    requires Frontier(g, start, end, [], visited, parent, depth, done, lo)
    ensures done == visited
    ensures forall q :: Reachable(g, start, q) ==> q in done
  {
    assert Elems([]) == {};
    forall q, i | q in done && 0 <= i < 4 && Passable(g, Neighbour(q, i)) ensures Neighbour(q, i) in done {
      assert ExpandedBelow(g, q, 4, visited, depth);
    }
    forall q | Reachable(g, start, q) ensures q in done {
      if q !in done {
        ClosedSeparates(g, done, start, q);
      }
    }
  }

  /** Every visited cell is reachable from the start along its parent links. */
  lemma VisitedReachable(g: Grid, start: Pos, visited: set<Pos>, parent: map<Pos, Pos>, depth: map<Pos, nat>)
    requires ParentTree(g, start, visited, parent, depth)
    ensures forall q :: q in visited ==> Reachable(g, start, q)
  {
    forall q | q in visited ensures Reachable(g, start, q) {
      var w := ParentRoute(g, start, visited, parent, depth, q);
    }
  }

  /** Along a route from the start shorter than the depth of the dequeued
      cell t, every cell is dequeued already and no deeper than its index. */
  lemma {:induction false} DepthAlongRoute(g: Grid, start: Pos, end: Pos, queue: seq<Pos>, visited: set<Pos>,
                                           parent: map<Pos, Pos>, depth: map<Pos, nat>, done: set<Pos>, lo: nat,
                                           w: seq<Pos>, i: nat)
    requires Frontier(g, start, end, queue, visited, parent, depth, done, lo)
    requires |queue| >= 1 && queue[0] in depth
    requires Route(g, w) && w[0] == start && i < |w| && |w| - 1 < depth[queue[0]]
    ensures w[i] in visited && depth[w[i]] <= i
    decreases i
  {
    if i > 0 {
      DepthAlongRoute(g, start, end, queue, visited, parent, depth, done, lo, w, i - 1);
      var u := w[i - 1];
      assert u in done;
      assert ExpandedBelow(g, u, 4, visited, depth);
      var d := AdjacentIsNeighbour(u, w[i]);
    }
  }

  /** When the end is dequeued its depth is the length of a shortest route. */
  lemma DequeuedEndIsShortest(g: Grid, start: Pos, end: Pos, queue: seq<Pos>, visited: set<Pos>,
                              parent: map<Pos, Pos>, depth: map<Pos, nat>, done: set<Pos>, lo: nat)
    requires Frontier(g, start, end, queue, visited, parent, depth, done, lo)
    requires |queue| >= 1 && queue[0] == end
    ensures end in depth
    ensures forall w :: Route(g, w) && w[0] == start && w[|w| - 1] == end ==> |w| >= depth[end] + 1
  {
    forall w | Route(g, w) && w[0] == start && w[|w| - 1] == end
      ensures |w| >= depth[end] + 1
    {
      if |w| - 1 < depth[end] {
        DepthAlongRoute(g, start, end, queue, visited, parent, depth, done, lo, w, |w| - 1);
      }
    }
  }

  /** Following parent links from a visited cell back to the start spells a
      route of depth + 1 cells. */
  lemma {:induction false} ParentRoute(g: Grid, start: Pos, visited: set<Pos>, parent: map<Pos, Pos>,
                                       depth: map<Pos, nat>, v: Pos) returns (w: seq<Pos>)
    requires ParentTree(g, start, visited, parent, depth) && v in visited
    ensures Route(g, w) && w[0] == start && w[|w| - 1] == v && |w| == depth[v] + 1
    decreases depth[v]
  {
    if v == start {
      w := [start];
    } else {
      var u := parent[v];
      var w' := ParentRoute(g, start, visited, parent, depth, u);
      w := w' + [v];
      assert forall i :: 1 <= i < |w'| ==> w[i] == w'[i];
    }
  }

  /** The loop of `isPathExists` and `solveBFS`: FIFO order, cells marked on
      enqueue, neighbours in the order right, down, left, up, and a stop as
      soon as the end is dequeued. `steps` counts dequeues: the cells in
      `done` (all reachable, none the end) plus the end itself when found,
      and when not found every cell reachable from the start. */
  method Traverse(g: Grid, start: Pos, end: Pos)
    returns (found: bool, parent: map<Pos, Pos>, steps: nat, visited: set<Pos>,
             ghost depth: map<Pos, nat>, ghost done: set<Pos>)
    requires Rectangular(g) && InBounds(g, start)
    ensures found <==> Reachable(g, start, end)
    ensures found ==> ParentTree(g, start, visited, parent, depth) && end in visited
    ensures found ==> forall w :: Route(g, w) && w[0] == start && w[|w| - 1] == end ==> |w| >= depth[end] + 1
    ensures done <= visited && end !in done
    ensures forall q :: q in done ==> Reachable(g, start, q)
    ensures found ==> steps == |done| + 1
    ensures !found ==> steps == |done| && done == visited && forall q :: Reachable(g, start, q) ==> q in done
    ensures 1 <= steps <= |g| * Cols(g)
  {
    var queue := [start];
    visited := {start};
    parent := map[];
    depth := map[start := 0];
    done := {};
    ghost var lo: nat := 0;
    steps := 0;
    InitialFrontier(g, start, end);
    BoxCount(|g|, Cols(g));
    while queue != []
      invariant Frontier(g, start, end, queue, visited, parent, depth, done, lo)
      invariant steps == |done|
      decreases |Cells(g) - done|
    {
      var cur := queue[0];
      assert cur in Elems(queue);
      steps := steps + 1;
      if cur == end {
        DequeuedEndIsShortest(g, start, end, queue, visited, parent, depth, done, lo);
        var w := ParentRoute(g, start, visited, parent, depth, end);
        SubsetSize(done + {end}, Cells(g));
        VisitedReachable(g, start, visited, parent, depth);
        return true, parent, steps, visited, depth, done;
      }
      Dequeue(g, start, end, queue, visited, parent, depth, done, lo);
      MarkOne(Cells(g), done, cur);
      queue := queue[1..];
      done := done + {cur};
      var n := 0;
      while n < 4
        invariant 0 <= n <= 4
        invariant Expanding(g, start, end, cur, n, queue, visited, parent, depth, done)
      {
        var next := Neighbour(cur, n);
        if InBounds(g, next) && next !in visited && g[next.x][next.y] != WALL {
          ExpandAdd(g, start, end, cur, n, queue, visited, parent, depth, done);
          queue := queue + [next];
          visited := visited + {next};
          parent := parent[next := cur];
          depth := depth[next := depth[cur] + 1];
        } else {
          ExpandSkip(g, start, end, cur, n, queue, visited, parent, depth, done);
        }
        n := n + 1;
      }
      ExpandFinished(g, start, end, cur, queue, visited, parent, depth, done);
      lo := depth[cur];
    }
    ExhaustedUnreachable(g, start, end, visited, parent, depth, done, lo);
    ExhaustedCovers(g, start, end, visited, parent, depth, done, lo);
    VisitedReachable(g, start, visited, parent, depth);
    SubsetSize(done, Cells(g));
    found := false;
  }

  /** `Collections.reverse`. */
  function Reverse(s: seq<Pos>): (r: seq<Pos>)
    ensures |r| == |s| && forall k :: 0 <= k < |s| ==> r[k] == s[|s| - 1 - k]
  {
    if s == [] then [] else Reverse(s[1..]) + [s[0]]
  }

  /** `reconstructPath`: collects the end and its ancestors up to the cell
      without a parent entry (the start), then reverses the list. The result
      is a route from the start with one cell per parent link plus one. */
  method ReconstructPath(parent: map<Pos, Pos>, end: Pos, ghost g: Grid, ghost start: Pos,
                         ghost visited: set<Pos>, ghost depth: map<Pos, nat>) returns (path: seq<Pos>)
    requires ParentTree(g, start, visited, parent, depth) && end in visited
    ensures Route(g, path) && path[0] == start && path[|path| - 1] == end
    ensures |path| == depth[end] + 1
  {
    var rev: seq<Pos> := [];
    var cur: Option<Pos> := Some(end);
    while cur.Some?
      invariant cur.Some? ==> cur.value in visited && |rev| + depth[cur.value] == depth[end]
      invariant cur.Some? && rev != [] ==> rev[|rev| - 1] in parent && cur.value == parent[rev[|rev| - 1]]
      invariant cur.Some? && rev == [] ==> cur.value == end
      invariant cur.None? ==> |rev| == depth[end] + 1 && rev[|rev| - 1] == start
      invariant rev != [] ==> rev[0] == end
      invariant forall k :: 0 <= k < |rev| - 1 ==> rev[k] in parent && rev[k + 1] == parent[rev[k]]
      decreases if cur.Some? then depth[cur.value] + 1 else 0
    {
      var c := cur.value;
      rev := rev + [c];
      cur := if c in parent then Some(parent[c]) else None;
    }
    path := Reverse(rev);
    forall i | 1 <= i < |path| ensures Passable(g, path[i]) {
      assert path[i] == rev[|rev| - 1 - i];
    }
    forall i | 0 <= i < |path| - 1 ensures Adjacent(path[i], path[i + 1]) {
      var m := |rev| - 1 - i;
      assert path[i] == rev[m] && path[i + 1] == rev[m - 1];
    }
  }

  /** `solveBFS` without the timing and printing. It finds a path exactly
      when the end is reachable, and the path it returns is a shortest one.
      The ghost `dequeued` is the set of cells taken off the queue before the
      end (or all of them, when the end is never reached). */
  method SolveBfs(lab: Labyrinth) returns (r: SolveResult, ghost dequeued: set<Pos>)
    requires Rectangular(lab.maze) && InBounds(lab.maze, lab.start)
    ensures r.found <==> Reachable(lab.maze, lab.start, lab.end)
    ensures r.found ==> Route(lab.maze, r.path) && r.path[0] == lab.start && r.path[|r.path| - 1] == lab.end
    ensures r.found ==>
      forall w :: Route(lab.maze, w) && w[0] == lab.start && w[|w| - 1] == lab.end ==> |r.path| <= |w|
    ensures !r.found ==> r.path == []
    ensures lab.end !in dequeued && forall q :: q in dequeued ==> Reachable(lab.maze, lab.start, q)
    ensures r.found ==> r.steps == |dequeued| + 1
    ensures !r.found ==>
      r.steps == |dequeued| && forall q :: Reachable(lab.maze, lab.start, q) ==> q in dequeued
    ensures 1 <= r.steps <= |lab.maze| * Cols(lab.maze)
  {
    var found, parent, steps, visited, depth, done := Traverse(lab.maze, lab.start, lab.end);
    dequeued := done;
    if found {
      var path := ReconstructPath(parent, lab.end, lab.maze, lab.start, visited, depth);
      r := SolveResult(path, steps, true);
    } else {
      r := SolveResult([], steps, false);
    }
  }

  /** `isPathExists(startX, startY, endX, endY)` of the two-phase generator:
      the same traversal without the parent map; the start cell itself is
      never checked. */
  method IsPathExists(g: Grid, start: Pos, end: Pos) returns (b: bool)
    requires Rectangular(g) && InBounds(g, start)
    ensures b <==> Reachable(g, start, end)
  {
    var found, parent, steps, visited, depth, done := Traverse(g, start, end);
    b := found;
  }
}
