/** Writing cells of a maze: the `maze[x][y] = c` assignments the generators
    are made of, and what a sequence of them may change. */
module Edits {
  import opened Grids

  /** Both grids have the same rows of the same lengths. */
  predicate SameShape(g: Grid, h: Grid) {
    |h| == |g| && forall i :: 0 <= i < |g| ==> |h[i]| == |g[i]|
  }

  /** `maze[p.x][p.y] = c`. */
  function SetCell(g: Grid, p: Pos, c: char): (r: Grid)
    requires InBounds(g, p)
    ensures SameShape(g, r) && r[p.x][p.y] == c
    ensures forall q :: InBounds(g, q) && q != p ==> r[q.x][q.y] == g[q.x][q.y]
  {
    g[p.x := g[p.x][p.y := c]]
  }

  predicate AllInBounds(g: Grid, cells: seq<Pos>) {
    forall k :: 0 <= k < |cells| ==> InBounds(g, cells[k])
  }

  /** The assignments `maze[x][y] = c` for each listed cell in turn: exactly
      the listed cells hold c afterwards, the others are untouched. */
  function SetCells(g: Grid, cells: seq<Pos>, c: char): (r: Grid)
    requires AllInBounds(g, cells)
    ensures SameShape(g, r)
    ensures forall q :: InBounds(g, q) ==> r[q.x][q.y] == if q in cells then c else g[q.x][q.y]
    decreases |cells|
  {
    if cells == [] then g
    else
      var n := |cells| - 1;
      var h := SetCells(g, cells[..n], c);
      assert forall q :: q in cells <==> q in cells[..n] || q == cells[n];
      SetCell(h, cells[n], c)
  }

  /** Every cell that differs between g and h is interior and holds c in h. */
  ghost predicate Painted(g: Grid, h: Grid, c: char)
    requires SameShape(g, h)
  {
    forall q :: InBounds(g, q) && h[q.x][q.y] != g[q.x][q.y] ==> Interior(g, q) && h[q.x][q.y] == c
  }

  /** Writing c over interior cells paints exactly those cells. */
  lemma SetCellsPainted(g: Grid, cells: seq<Pos>, c: char)
    requires Rectangular(g) && forall i :: 0 <= i < |cells| ==> Interior(g, cells[i])
    ensures AllInBounds(g, cells) && SameShape(g, SetCells(g, cells, c))
    ensures Painted(g, SetCells(g, cells, c), c)
    ensures forall i :: 0 <= i < |cells| ==> SetCells(g, cells, c)[cells[i].x][cells[i].y] == c
    ensures forall q :: InBounds(g, q) && SetCells(g, cells, c)[q.x][q.y] != g[q.x][q.y] ==> q in cells
  {
    assert AllInBounds(g, cells);
    var r := SetCells(g, cells, c);
    forall q | InBounds(g, q) && r[q.x][q.y] != g[q.x][q.y] ensures Interior(g, q) && q in cells {
      var i :| 0 <= i < |cells| && cells[i] == q;
    }
  }

  lemma PaintedTrans(a: Grid, b: Grid, d: Grid, c: char)
    requires SameShape(a, b) && SameShape(b, d) && Painted(a, b, c) && Painted(b, d, c)
    ensures SameShape(a, d) && Painted(a, d, c)
  {
    forall q | InBounds(a, q) && d[q.x][q.y] != a[q.x][q.y] ensures Interior(a, q) && d[q.x][q.y] == c {
      assert InBounds(b, q);
    }
  }

  /** Every cell is a wall or open: a maze before `S` and `E` are placed. */
  ghost predicate Plain(g: Grid) {
    forall q :: InBounds(g, q) ==> g[q.x][q.y] == WALL || g[q.x][q.y] == OPEN
  }

  /** Every cell that differs between g and h is interior and is a wall or
      open in h: what the complexity passes do, taken together. */
  ghost predicate Redrawn(g: Grid, h: Grid)
    requires SameShape(g, h)
  {
    forall q :: InBounds(g, q) && h[q.x][q.y] != g[q.x][q.y] ==>
      Interior(g, q) && (h[q.x][q.y] == WALL || h[q.x][q.y] == OPEN)
  }

  lemma PaintedRedrawn(g: Grid, h: Grid, c: char)
    requires SameShape(g, h) && Painted(g, h, c) && (c == WALL || c == OPEN)
    ensures Redrawn(g, h)
  {
  }

  lemma RedrawnTrans(a: Grid, b: Grid, d: Grid)
    requires SameShape(a, b) && SameShape(b, d) && Redrawn(a, b) && Redrawn(b, d)
    ensures SameShape(a, d) && Redrawn(a, d)
  {
    forall q | InBounds(a, q) && d[q.x][q.y] != a[q.x][q.y]
      ensures Interior(a, q) && (d[q.x][q.y] == WALL || d[q.x][q.y] == OPEN)
    {
      assert InBounds(b, q);
    }
  }

  /** Redrawing keeps the border and keeps a plain maze plain. */
  lemma RedrawnKeeps(g: Grid, h: Grid)
    requires SameShape(g, h) && Redrawn(g, h)
    ensures forall q :: InBounds(g, q) && !Interior(g, q) ==> h[q.x][q.y] == g[q.x][q.y]
    ensures Plain(g) ==> Plain(h)
  {
    if Plain(g) {
      forall q | InBounds(h, q) ensures h[q.x][q.y] == WALL || h[q.x][q.y] == OPEN {
        assert InBounds(g, q);
      }
    }
  }
}
