/** The three checks that reject a placement of a block with its top-left
    corner at column x, row y: out of the board, overlapping, or sharing a
    side with one of the player's own pieces.  They are evaluated against
    the grid before the placement. */
module Legality {
  import opened Board
  import opened Geometry

  /** Cell (r, c) lies in the w-by-h box whose top-left cell is (y, x). */
  predicate InBox(r: int, c: int, x: int, y: int, w: int, h: int) {
    y <= r < y + h && x <= c < x + w
  }

  /** is_out_board.  The comparison is `>=`, so a block that ends exactly at
      the board's edge is rejected: no accepted placement with a
      non-negative corner reaches the last row or the last column. */
  function IsOutBoard(x: int, y: int, w: nat, h: nat): (r: bool)
    ensures !r && 0 <= x && 0 <= y ==>
              forall row, col :: InBox(row, col, x, y, w, h) ==>
                InGrid(row, col) && row != Height - 1 && col != Width - 1
    ensures r && w >= 1 && h >= 1 ==> y + h - 1 >= Height - 1 || x + w - 1 >= Width - 1
  {
    x + w >= Width || y + h >= Height
  }

  /** The w-by-h box at (x, y) lies on the board, so that the board slice
      the overlap test adds the block to has the block's own shape. */
  predicate Fits(b: Pattern, x: int, y: int) {
    IsPattern(b) && 0 <= x && 0 <= y && x + Cols(b) <= Width && y + Rows(b) <= Height
  }

  /** 1 for a filled cell of a block, 0 for an empty one. */
  function Bit(filled: bool): int {
    if filled then 1 else 0
  }

  /** is_overlap: some cell of the box has board value + block value > 1.
      Because an opponent's cell has value 2, it rejects the placement
      wherever it lies in the box, even under an empty cell of the block;
      an own cell rejects it only under a filled cell. */
  function IsOverlap(g: Grid, b: Pattern, x: int, y: int): (r: bool)
    requires IsGrid(g) && Fits(b, x, y)
    ensures r <==> exists row, col :: InBox(row, col, x, y, Cols(b), Rows(b)) &&
                     (g[row][col] == Other || (g[row][col] == Own && b[row - y][col - x]))
  {
    var found := exists i, j :: 0 <= i < Rows(b) && 0 <= j < Cols(b) && Value(g[y + i][x + j]) + Bit(b[i][j]) > 1;
    ghost var blocked := exists row, col :: InBox(row, col, x, y, Cols(b), Rows(b)) &&
                           (g[row][col] == Other || (g[row][col] == Own && b[row - y][col - x]));
    assert found ==> blocked by {
      if found {
        var i, j :| 0 <= i < Rows(b) && 0 <= j < Cols(b) && Value(g[y + i][x + j]) + Bit(b[i][j]) > 1;
        assert InBox(y + i, x + j, x, y, Cols(b), Rows(b));
      }
    }
    assert blocked ==> found by {
      if blocked {
        var row, col :| InBox(row, col, x, y, Cols(b), Rows(b)) &&
                         (g[row][col] == Other || (g[row][col] == Own && b[row - y][col - x]));
        assert Value(g[y + (row - y)][x + (col - x)]) + Bit(b[row - y][col - x]) > 1;
      }
    }
    found
  }

  /** Some own cell lies in row `row` between columns x0 (inclusive) and x1. */
  predicate RowHasOwn(g: Grid, row: int, x0: int, x1: int)
    requires IsGrid(g) && 0 <= row < Height && 0 <= x0 && x1 <= Width
  {
    exists c :: x0 <= c < x1 && g[row][c] == Own
  }

  /** Some own cell lies in column `col` between rows y0 (inclusive) and y1. */
  predicate ColHasOwn(g: Grid, col: int, y0: int, y1: int)
    requires IsGrid(g) && 0 <= col < Width && 0 <= y0 && y1 <= Height
  {
    exists r :: y0 <= r < y1 && g[r][col] == Own
  }

  function Max(a: int, b: int): int {
    if a >= b then a else b
  }

  /** is_adjacent: looks for an own cell in the four strips along the sides
      of the box (not at its corners).  The top and left strips are clamped
      with max(0, ·), so on the top row or the left column they fall on the
      box's own first row or column.  The bottom and right strips are
      clamped with min(14, ·), which would index past the board when the box
      touches the last row or column; the search only calls this after
      is_out_board has excluded that, and so does the requires here. */
  function IsAdjacent(g: Grid, x: int, y: int, w: nat, h: nat): (r: bool)
    requires IsGrid(g)
    requires 0 <= x && 0 <= y && x + w < Width && y + h < Height
    ensures y == 0 && (exists c :: x <= c < x + w && g[0][c] == Own) ==> r
    ensures x == 0 && (exists row :: y <= row < y + h && g[row][0] == Own) ==> r
  {
    RowHasOwn(g, Max(0, y - 1), x, x + w)
    || RowHasOwn(g, y + h, x, x + w)
    || ColHasOwn(g, Max(0, x - 1), y, y + h)
    || ColHasOwn(g, x + w, y, y + h)
  }

  /** Two cells share a side. */
  predicate SideBySide(r1: int, c1: int, r2: int, c2: int) {
    (r1 == r2 && (c1 == c2 + 1 || c2 == c1 + 1)) || (c1 == c2 && (r1 == r2 + 1 || r2 == r1 + 1))
  }

  /** Some own cell outside the box shares a side with a cell of the box. */
  ghost predicate OwnTouchesBoxSide(g: Grid, x: int, y: int, w: int, h: int)
    requires IsGrid(g)
  {
    exists r, c, i, j ::
      InGrid(r, c) && !InBox(r, c, x, y, w, h) && InBox(i, j, x, y, w, h) &&
      SideBySide(r, c, i, j) && g[r][c] == Own
  }

  /** Away from the top and left edges the strip test is exactly "an own
      cell outside the bounding box shares a side with the box".  Own cells
      diagonally off the box's corners never count, and neither do own cells
      inside the box (those are the overlap test's business), nor does the
      block's shape: a side contact next to an empty cell of the block
      rejects the placement too. */
  lemma AdjacencyIsSideContact(g: Grid, x: int, y: int, w: nat, h: nat)
    requires IsGrid(g)
    requires 1 <= x && 1 <= y && x + w < Width && y + h < Height
    requires 1 <= w && 1 <= h
    ensures IsAdjacent(g, x, y, w, h) <==> OwnTouchesBoxSide(g, x, y, w, h)
  {
    if IsAdjacent(g, x, y, w, h) {
      if RowHasOwn(g, y - 1, x, x + w) {
        var c :| x <= c < x + w && g[y - 1][c] == Own;
        assert SideBySide(y - 1, c, y, c) && InBox(y, c, x, y, w, h);
      } else if RowHasOwn(g, y + h, x, x + w) {
        var c :| x <= c < x + w && g[y + h][c] == Own;
        assert SideBySide(y + h, c, y + h - 1, c) && InBox(y + h - 1, c, x, y, w, h);
      } else if ColHasOwn(g, x - 1, y, y + h) {
        var r :| y <= r < y + h && g[r][x - 1] == Own;
        assert SideBySide(r, x - 1, r, x) && InBox(r, x, x, y, w, h);
      } else {
        assert ColHasOwn(g, x + w, y, y + h);
        var r :| y <= r < y + h && g[r][x + w] == Own;
        assert SideBySide(r, x + w, r, x + w - 1) && InBox(r, x + w - 1, x, y, w, h);
      }
    }
    if OwnTouchesBoxSide(g, x, y, w, h) {
      var r, c, i, j :|
        InGrid(r, c) && !InBox(r, c, x, y, w, h) && InBox(i, j, x, y, w, h) &&
        SideBySide(r, c, i, j) && g[r][c] == Own;
      if r == y - 1 {
        assert RowHasOwn(g, y - 1, x, x + w);
      } else if r == y + h {
        assert RowHasOwn(g, y + h, x, x + w);
      } else if c == x - 1 {
        assert ColHasOwn(g, x - 1, y, y + h);
      } else {
        assert c == x + w;
        assert ColHasOwn(g, x + w, y, y + h);
      }
    }
  }

  /** The strip test everywhere it is called, edges included: it holds iff
      an own cell outside the box shares a side with the box, or the box
      sits on the top row with an own cell in its first row, or in the left
      column with an own cell in its first column (the clamped strips). */
  lemma AdjacencyWithClamp(g: Grid, x: int, y: int, w: nat, h: nat)
    requires IsGrid(g)
    requires 0 <= x && 0 <= y && x + w < Width && y + h < Height
    requires 1 <= w && 1 <= h
    ensures IsAdjacent(g, x, y, w, h) <==>
              OwnTouchesBoxSide(g, x, y, w, h)
              || (y == 0 && RowHasOwn(g, 0, x, x + w))
              || (x == 0 && ColHasOwn(g, 0, y, y + h))
  {
    if IsAdjacent(g, x, y, w, h) {
      if RowHasOwn(g, Max(0, y - 1), x, x + w) {
        if y > 0 {
          var c :| x <= c < x + w && g[y - 1][c] == Own;
          assert SideBySide(y - 1, c, y, c) && InBox(y, c, x, y, w, h);
        }
      } else if RowHasOwn(g, y + h, x, x + w) {
        var c :| x <= c < x + w && g[y + h][c] == Own;
        assert SideBySide(y + h, c, y + h - 1, c) && InBox(y + h - 1, c, x, y, w, h);
      } else if ColHasOwn(g, Max(0, x - 1), y, y + h) {
        if x > 0 {
          var r :| y <= r < y + h && g[r][x - 1] == Own;
          assert SideBySide(r, x - 1, r, x) && InBox(r, x, x, y, w, h);
        }
      } else {
        assert ColHasOwn(g, x + w, y, y + h);
        var r :| y <= r < y + h && g[r][x + w] == Own;
        assert SideBySide(r, x + w, r, x + w - 1) && InBox(r, x + w - 1, x, y, w, h);
      }
    }
    if OwnTouchesBoxSide(g, x, y, w, h) {
      var r, c, i, j :|
        InGrid(r, c) && !InBox(r, c, x, y, w, h) && InBox(i, j, x, y, w, h) &&
        SideBySide(r, c, i, j) && g[r][c] == Own;
      if r == y - 1 {
        assert RowHasOwn(g, y - 1, x, x + w);
      } else if r == y + h {
        assert RowHasOwn(g, y + h, x, x + w);
      } else if c == x - 1 {
        assert ColHasOwn(g, x - 1, y, y + h);
      } else {
        assert c == x + w;
        assert ColHasOwn(g, x + w, y, y + h);
      }
    }
  }
}
