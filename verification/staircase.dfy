/** `ensurePath`, the connectivity safety net of both generators (the two
    copies are the same apart from comments): it walks from the start down
    the start column to the end row, then right along the end row, opening
    every cell it steps on that is not `S` or `E`. */
module Staircase {
  import opened Grids
  import opened Edits

  /** The cells the walk from s to e steps on: (s.x + 1 .. e.x, s.y), then
      (e.x, s.y + 1 .. e.y). The start itself is not one of them. */
  predicate OnStaircase(s: Pos, e: Pos, p: Pos) {
    (p.y == s.y && s.x < p.x <= e.x) || (p.x == e.x && s.y < p.y <= e.y)
  }

  /** What `ensurePath` leaves at p. */
  function Staired(g: Grid, s: Pos, e: Pos, p: Pos): char
    requires InBounds(g, p)
  {
    if OnStaircase(s, e, p) && g[p.x][p.y] != START && g[p.x][p.y] != END then OPEN else g[p.x][p.y]
  }

  /** The staircase from s to e is a route once none of its cells is a wall. */
  lemma {:induction false} StaircaseRoute(g: Grid, s: Pos, e: Pos) returns (w: seq<Pos>)
    requires s.x <= e.x && s.y <= e.y
    requires forall p :: OnStaircase(s, e, p) ==> Passable(g, p)
    ensures Route(g, w) && w[0] == s && w[|w| - 1] == e
    decreases (e.x - s.x) + (e.y - s.y)
  {
    if s == e {
      w := [s];
    } else {
      var s' := if s.x < e.x then Pos(s.x + 1, s.y) else Pos(s.x, s.y + 1);
      assert OnStaircase(s, e, s');
      forall p | OnStaircase(s', e, p) ensures Passable(g, p) {
        assert OnStaircase(s, e, p);
      }
      var w' := StaircaseRoute(g, s', e);
      w := [s] + w';
      assert forall i :: 1 <= i < |w| ==> w[i] == w'[i - 1];
    }
  }

  /** `ensurePath(startX, startY, endX, endY)`. The loop ends only when the
      start is above and left of the end (otherwise it spins forever), with
      (endX - x) + (endY - y) as its measure. It opens exactly the staircase
      cells that are not `S`/`E` and changes nothing else; `StairedConnects`
      shows that this leaves the end reachable from the start. */
  method EnsurePath(g: Grid, s: Pos, e: Pos) returns (r: Grid)
    requires Rectangular(g) && InBounds(g, s) && InBounds(g, e)
    requires s.x <= e.x && s.y <= e.y
    ensures SameShape(g, r)
    ensures forall p :: InBounds(g, p) ==> r[p.x][p.y] == Staired(g, s, e, p)
  {
    r := g;
    var x, y := s.x, s.y;
    while x != e.x || y != e.y
      invariant s.x <= x <= e.x && s.y <= y <= e.y
      invariant y != s.y ==> x == e.x
      invariant SameShape(g, r)
      invariant forall p :: InBounds(g, p) ==> r[p.x][p.y] == Staired(g, s, Pos(x, y), p)
      decreases (e.x - x) + (e.y - y)
    {
      if x < e.x {
        x := x + 1;
      } else if y < e.y {
        y := y + 1;
      }
      if r[x][y] != START && r[x][y] != END {
        r := SetCell(r, Pos(x, y), OPEN);
      }
    }
  }

  /** The grid `ensurePath` leaves has no wall on the staircase, so the end
      is reachable from the start. */
  lemma StairedConnects(g: Grid, s: Pos, e: Pos, r: Grid)
    requires Rectangular(g) && InBounds(g, s) && InBounds(g, e) && s.x <= e.x && s.y <= e.y
    requires SameShape(g, r) && forall p :: InBounds(g, p) ==> r[p.x][p.y] == Staired(g, s, e, p)
    ensures forall p :: OnStaircase(s, e, p) ==> Passable(r, p)
    ensures Reachable(r, s, e)
  {
    forall p | OnStaircase(s, e, p) ensures Passable(r, p) {
      assert InBounds(g, p);
    }
    var w := StaircaseRoute(r, s, e);
  }
}
