/** Starting points: the cells a placement may be anchored on.  The client
    walks the board row by row and, for every own cell, adds one to each of
    its up-to-four diagonal neighbours that is on the board and empty.  The
    resulting grid holds, for each empty cell, how many own cells touch it
    diagonally, and 0 for every occupied cell. */
module Anchors {
  import opened Board

  function CountIf(b: bool): nat {
    if b then 1 else 0
  }

  /** (r, c) is on the board and holds an own piece. */
  predicate OwnAt(g: Grid, r: int, c: int)
    requires IsGrid(g)
  {
    InGrid(r, c) && g[r][c] == Own
  }

  /** How many of the four diagonal neighbours of (r, c) are own cells;
      neighbours off the board are skipped. */
  function OwnDiagonals(g: Grid, r: int, c: int): (n: nat)
    requires IsGrid(g)
    ensures n <= 4
    ensures n == 0 <==> !OwnAt(g, r - 1, c - 1) && !OwnAt(g, r - 1, c + 1) &&
                        !OwnAt(g, r + 1, c - 1) && !OwnAt(g, r + 1, c + 1)
  {
    CountIf(OwnAt(g, r - 1, c - 1)) + CountIf(OwnAt(g, r - 1, c + 1))
    + CountIf(OwnAt(g, r + 1, c - 1)) + CountIf(OwnAt(g, r + 1, c + 1))
  }

  /** The value the starting-point grid should hold at (r, c): between 0
      and 4, and at least 1 exactly for an empty cell diagonally touching an
      own cell. */
  function StartingPoint(g: Grid, r: int, c: int): (n: int)
    requires IsGrid(g) && InGrid(r, c)
    ensures 0 <= n <= 4
    ensures n >= 1 <==> g[r][c] == Empty &&
                        (OwnAt(g, r - 1, c - 1) || OwnAt(g, r - 1, c + 1) ||
                         OwnAt(g, r + 1, c - 1) || OwnAt(g, r + 1, c + 1))
  {
    if g[r][c] == Empty then OwnDiagonals(g, r, c) else 0
  }

  predicate IsCountGrid(sp: seq<seq<int>>) {
    |sp| == Height && forall r :: 0 <= r < Height ==> |sp[r]| == Width
  }

  /** (r, c) comes before (yi, xi) in row-major order. */
  predicate Precedes(r: int, c: int, yi: int, xi: int) {
    r < yi || (r == yi && c < xi)
  }

  /** OwnDiagonals restricted to the own cells the walk has already visited
      when it is about to visit (yi, xi). */
  function OwnDiagonalsBefore(g: Grid, r: int, c: int, yi: int, xi: int): nat
    requires IsGrid(g)
  {
    CountIf(OwnAt(g, r - 1, c - 1) && Precedes(r - 1, c - 1, yi, xi))
    + CountIf(OwnAt(g, r - 1, c + 1) && Precedes(r - 1, c + 1, yi, xi))
    + CountIf(OwnAt(g, r + 1, c - 1) && Precedes(r + 1, c - 1, yi, xi))
    + CountIf(OwnAt(g, r + 1, c + 1) && Precedes(r + 1, c + 1, yi, xi))
  }

  /** The grid value at (r, c) just before the walk visits (yi, xi). */
  function PartialCount(g: Grid, r: int, c: int, yi: int, xi: int): int
    requires IsGrid(g) && InGrid(r, c)
  {
    if g[r][c] == Empty then OwnDiagonalsBefore(g, r, c, yi, xi) else 0
  }

  /** (r, c) is one of the four diagonal neighbours of (yi, xi). */
  predicate Diagonal(r: int, c: int, yi: int, xi: int) {
    (r == yi - 1 || r == yi + 1) && (c == xi - 1 || c == xi + 1)
  }

  /** One `starting_points[pos] += 1` guarded by "pos is on the board and
      empty": exactly that cell goes up by one, nothing else changes. */
  function Bump(g: Grid, sp: seq<seq<int>>, r: int, c: int): (sp': seq<seq<int>>)
    requires IsGrid(g) && IsCountGrid(sp)
    ensures IsCountGrid(sp')
    ensures forall i, j :: InGrid(i, j) ==>
              sp'[i][j] == sp[i][j] + CountIf(i == r && j == c && g[i][j] == Empty)
  {
    if InGrid(r, c) && g[r][c] == Empty then sp[r := sp[r][c := sp[r][c] + 1]] else sp
  }

  /** Visiting (yi, xi) adds to a cell's running count exactly when
      (yi, xi) is own and the cell is an empty diagonal neighbour of it. */
  lemma VisitStep(g: Grid, r: int, c: int, yi: int, xi: int)
    requires IsGrid(g) && InGrid(r, c) && InGrid(yi, xi)
    ensures PartialCount(g, r, c, yi, xi + 1)
            == PartialCount(g, r, c, yi, xi)
               + CountIf(g[yi][xi] == Own && g[r][c] == Empty && Diagonal(r, c, yi, xi))
  {
  }

  /** Finishing row yi is the same as starting row yi + 1. */
  lemma RowStep(g: Grid, r: int, c: int, yi: int)
    requires IsGrid(g) && InGrid(r, c)
    ensures PartialCount(g, r, c, yi, Width) == PartialCount(g, r, c, yi + 1, 0)
  {
  }

  /** identify_starting_points.  The walk scatters from own cells; the
      result is the gather-style count: every empty cell holds the number of
      own cells diagonal to it and every occupied cell holds 0. */
  method IdentifyStartingPoints(g: Grid) returns (sp: seq<seq<int>>)
    requires IsGrid(g)
    ensures IsCountGrid(sp)
    ensures forall r, c :: InGrid(r, c) ==> sp[r][c] == StartingPoint(g, r, c)
  {
    sp := seq(Height, _ => seq(Width, _ => 0));
    var yi := 0;
    while yi < Height
      invariant 0 <= yi <= Height
      invariant IsCountGrid(sp)
      invariant forall r, c :: InGrid(r, c) ==> sp[r][c] == PartialCount(g, r, c, yi, 0)
    {
      var xi := 0;
      while xi < Width
        invariant 0 <= xi <= Width
        invariant IsCountGrid(sp)
        invariant forall r, c :: InGrid(r, c) ==> sp[r][c] == PartialCount(g, r, c, yi, xi)
      {
        if g[yi][xi] == Own {
          sp := Bump(g, sp, yi - 1, xi - 1);
          sp := Bump(g, sp, yi - 1, xi + 1);
          sp := Bump(g, sp, yi + 1, xi - 1);
          sp := Bump(g, sp, yi + 1, xi + 1);
        }
        forall r, c | InGrid(r, c)
          ensures sp[r][c] == PartialCount(g, r, c, yi, xi + 1)
        {
          VisitStep(g, r, c, yi, xi);
        }
        xi := xi + 1;
      }
      forall r, c | InGrid(r, c)
        ensures sp[r][c] == PartialCount(g, r, c, yi + 1, 0)
      {
        RowStep(g, r, c, yi);
      }
      yi := yi + 1;
    }
  }

  /** The whole count grid at once. */
  function StartingPoints(g: Grid): (sp: seq<seq<int>>)
    requires IsGrid(g)
    ensures IsCountGrid(sp)
  {
    seq(Height, r requires 0 <= r < Height => seq(Width, c requires 0 <= c < Width => StartingPoint(g, r, c)))
  }

  /** The scan's result is that grid: a count grid is determined by its cells. */
  lemma ScanIsStartingPoints(g: Grid, sp: seq<seq<int>>)
    requires IsGrid(g) && IsCountGrid(sp)
    requires forall r, c :: InGrid(r, c) ==> sp[r][c] == StartingPoint(g, r, c)
    ensures sp == StartingPoints(g)
  {
    assert forall r :: 0 <= r < Height ==> sp[r] == StartingPoints(g)[r];
  }
}
