/** `addComplexPatterns` and `isSafeToDrawPattern`: between three and seven
    attempts to stamp a cross, a T or a spiral of open cells at a random
    anchor, each made only where the guard allows it. */
module Patterns {
  import opened Grids
  import opened Choices
  import opened Edits

  /** `patternType` 0, 1 and 2. */
  datatype Pattern = Cross | Tee | Spiral

  function PatternOf(k: nat): Pattern
    requires k < 3
  {
    if k == 0 then Cross else if k == 1 then Tee else Spiral
  }

  /** The cells each pattern opens, relative to its anchor (row, column),
      in the order the source writes them. Each template holds the anchor,
      names no cell twice, and stays within one column of the anchor and
      between the row above it and the last row of its guarded extent. */
  function Template(k: Pattern): (t: seq<Pos>)
    ensures Pos(0, 0) in t && Distinct(t)
    ensures forall i :: 0 <= i < |t| ==> -1 <= t[i].x < Extent(k).0 && -1 <= t[i].y <= 1
  {
    match k
    case Cross => [Pos(0, 0), Pos(0, -1), Pos(0, 1), Pos(-1, 0), Pos(1, 0)]
    case Tee => [Pos(0, -1), Pos(0, 0), Pos(0, 1), Pos(1, 0)]
    case Spiral => [Pos(0, 0), Pos(0, 1), Pos(1, 1), Pos(1, 0), Pos(1, -1), Pos(2, -1), Pos(2, 0), Pos(2, 1), Pos(3, 1)]
  }

  /** The (height, width) each pattern passes to the guard. */
  function Extent(k: Pattern): (int, int) {
    match k
    case Cross => (3, 3)
    case Tee => (2, 3)
    case Spiral => (4, 4)
  }

  /** `isSafeToDrawPattern(x, y, height, width)`. It holds exactly when the
      whole box from (x, y) to (x + height, y + width) lies inside the border. */
  function IsSafeToDrawPattern(g: Grid, x: int, y: int, height: nat, width: nat): (safe: bool)
    ensures safe <==> forall p: Pos :: x <= p.x <= x + height && y <= p.y <= y + width ==> Interior(g, p)
  {
    if x < 1 || y < 1 || x + height >= |g| - 1 || y + width >= Cols(g) - 1 then
      assert !Interior(g, Pos(x, y)) || !Interior(g, Pos(x + height, y + width));
      false
    else
      true
  }

  /** The template placed at anchor a. */
  function Placed(a: Pos, k: Pattern): (cells: seq<Pos>)
    ensures |cells| == |Template(k)|
    ensures forall i :: 0 <= i < |cells| ==> cells[i] == Pos(a.x + Template(k)[i].x, a.y + Template(k)[i].y)
  {
    seq(|Template(k)|, i requires 0 <= i < |Template(k)| => Pos(a.x + Template(k)[i].x, a.y + Template(k)[i].y))
  }

  /** The guard's box covers the template, except the column left of the
      anchor: a pattern the guard admits stays inside the border as long as
      the anchor is at least two cells from the top and left edges, which the
      source's anchors (at least 3) are. */
  lemma SafePatternInside(g: Grid, a: Pos, k: Pattern)
    requires a.x >= 2 && a.y >= 2 && IsSafeToDrawPattern(g, a.x, a.y, Extent(k).0, Extent(k).1)
    ensures forall i :: 0 <= i < |Placed(a, k)| ==> Interior(g, Placed(a, k)[i])
  {
    var h, w := Extent(k).0, Extent(k).1;
    assert Interior(g, Pos(a.x + h, a.y + w));
    forall i | 0 <= i < |Placed(a, k)| ensures Interior(g, Placed(a, k)[i]) {
      var t := Template(k)[i];
      assert -1 <= t.x <= h - 1 && -1 <= t.y <= w - 1;
    }
  }

  /** Without the anchor's lower bound the guard lets a pattern reach the
      border: a cross anchored at (1, 1) in a 7 × 7 maze opens (0, 1). */
  lemma GuardAloneAdmitsBorder()
    ensures var g := seq(7, i => seq(7, j => WALL));
      IsSafeToDrawPattern(g, 1, 1, 3, 3) && !Interior(g, Placed(Pos(1, 1), Cross)[3])
  {
    var g := seq(7, i => seq(7, j => WALL));
    assert Interior(g, Pos(1, 1)) && Interior(g, Pos(4, 4));
    assert Placed(Pos(1, 1), Cross)[3] == Pos(0, 1);
  }

  /** One pass of the pattern loop with type k at anchor a: the template is
      opened if the guard admits it, otherwise nothing changes. */
  function DrawPattern(g: Grid, a: Pos, k: Pattern): (r: Grid)
    requires Rectangular(g) && a.x >= 2 && a.y >= 2
    ensures SameShape(g, r) && Painted(g, r, OPEN)
    ensures IsSafeToDrawPattern(g, a.x, a.y, Extent(k).0, Extent(k).1) ==>
      forall i :: 0 <= i < |Placed(a, k)| ==> OpenAt(r, Placed(a, k)[i])
    ensures !IsSafeToDrawPattern(g, a.x, a.y, Extent(k).0, Extent(k).1) ==> r == g
    ensures forall q :: InBounds(g, q) && r[q.x][q.y] != g[q.x][q.y] ==> q in Placed(a, k)
  {
    if IsSafeToDrawPattern(g, a.x, a.y, Extent(k).0, Extent(k).1) then
      SafePatternInside(g, a, k);
      SetCellsPainted(g, Placed(a, k), OPEN);
      SetCells(g, Placed(a, k), OPEN)
    else
      g
  }

  /** `addComplexPatterns()`. The anchor draws `nextInt(rows - 6) + 3` need
      at least 7 rows and columns; with fewer the source throws. */
  method AddComplexPatterns(g: Grid, rng: Random) returns (r: Grid, rng': Random)
    requires Rectangular(g) && |g| >= 7 && Cols(g) >= 7
    ensures SameShape(g, r) && Painted(g, r, OPEN)
    ensures rng'.draw == rng.draw
  {
    var (count, rng1) := NextInt(rng, 5);
    var numPatterns := count + 3;
    r, rng' := g, rng1;
    var p := 0;
    while p < numPatterns
      invariant SameShape(g, r) && Painted(g, r, OPEN) && rng'.draw == rng.draw
    {
      var (px, rng2) := NextInt(rng', |g| - 6);
      var (py, rng3) := NextInt(rng2, Cols(g) - 6);
      var (kind, rng4) := NextInt(rng3, 3);
      var r1 := DrawPattern(r, Pos(px + 3, py + 3), PatternOf(kind));
      PaintedTrans(g, r, r1, OPEN);
      r, rng' := r1, rng4;
      p := p + 1;
    }
  }
}
