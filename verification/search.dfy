/** find_placeable_position: the greedy placement search.  For every piece
    still held (in list order), every one of the eight rotation / flip loop
    steps, every starting-point cell whose count is exactly 1 (row-major),
    and every filled cell of the block (row-major), the block is slid so
    that the filled cell lands on the starting point.  Candidates with a
    negative corner or that fail one of the three legality checks are
    skipped; among the rest the first one with the strictly smallest score
    is kept.  Here the nested loops are an explicit sequence of candidates
    in loop order, and the running best is a fold over it. */
module Search {
  import opened Board
  import opened Geometry
  import opened Orientation
  import opened Legality
  import Anchors

  /** The piece catalog is a parameter: a pattern for each piece letter.
      Every piece the search looks up must have a proper 2-D pattern. */
  predicate CatalogCovers(catalog: char -> Pattern, blocks: seq<char>) {
    forall p :: p in blocks ==> IsPattern(catalog(p))
  }

  /** Steps between two cells moving along rows and columns. */
  function Manhattan(r1: int, c1: int, r2: int, c2: int): nat {
    (if r1 < r2 then r2 - r1 else r1 - r2) + (if c1 < c2 then c2 - c1 else c1 - c2)
  }

  /** evaluate_position: player 1 prefers placements near the top-left
      corner, any other player near the bottom-right corner.  For a corner
      on the board the score is its distance from the player's own board
      corner, less a constant for the second player. */
  function EvaluatePosition(player: int, nx: int, ny: int): (r: int)
    ensures InGrid(ny, nx) && player == 1 ==> r == Manhattan(ny, nx, 0, 0)
    ensures InGrid(ny, nx) && player != 1 ==>
              r == Manhattan(ny, nx, Height - 1, Width - 1) - (Height - 1) - (Width - 1)
  {
    if player == 1 then nx + ny else - nx - ny
  }

  /** A lower score is a corner nearer the player's own board corner: the
      top-left one (smaller nx + ny) for player 1, the bottom-right one
      (larger nx + ny) for any other player. */
  lemma ScorePrefersOwnCorner(player: int, nx1: int, ny1: int, nx2: int, ny2: int)
    ensures EvaluatePosition(player, nx1, ny1) < EvaluatePosition(player, nx2, ny2) <==>
            (if player == 1 then nx1 + ny1 < nx2 + ny2 else nx1 + ny1 > nx2 + ny2)
  {
  }

  /** One iteration of the innermost loop: the piece, the loop step (whose
      labels are StepRotation(step) and StepFlip(step)), the block held at
      that step, the starting point (ay, ax) and the filled cell (oy, ox). */
  datatype Candidate = Candidate(piece: char, step: nat, block: Pattern, ay: int, ax: int, oy: int, ox: int)
  {
    /** Column of the block's top-left corner. */
    function NX(): int {
      ax - ox
    }

    /** Row of the block's top-left corner. */
    function NY(): int {
      ay - oy
    }
  }

  /** What the search returns: (block_type, nx, ny, rotation, flip). */
  datatype Placement = Placement(piece: char, nx: int, ny: int, rotation: nat, flip: bool)

  function PlacementOf(c: Candidate): Placement {
    Placement(c.piece, c.NX(), c.NY(), StepRotation(c.step), StepFlip(c.step))
  }

  function Score(player: int, c: Candidate): int {
    EvaluatePosition(player, c.NX(), c.NY())
  }

  /** The candidate passes every `continue` of the loop body: its corner is
      on the board, it is not out of the board, it does not overlap, and it
      is not adjacent to an own piece. */
  predicate Legal(g: Grid, c: Candidate)
    requires IsGrid(g)
    ensures Legal(g, c) ==>
              0 <= c.NX() && 0 <= c.NY() &&
              c.NX() + Cols(c.block) < Width && c.NY() + Rows(c.block) < Height
    ensures Legal(g, c) ==>
              && IsPattern(c.block)
              && forall row, col :: InBox(row, col, c.NX(), c.NY(), Cols(c.block), Rows(c.block)) ==>
                   g[row][col] != Other && (c.block[row - c.NY()][col - c.NX()] ==> g[row][col] == Empty)
  {
    && IsPattern(c.block)
    && !(c.NY() < 0 || c.NY() >= Height || c.NX() < 0 || c.NX() >= Width)
    && !IsOutBoard(c.NX(), c.NY(), Cols(c.block), Rows(c.block))
    && !IsOverlap(g, c.block, c.NX(), c.NY())
    && !IsAdjacent(g, c.NX(), c.NY(), Cols(c.block), Rows(c.block))
  }

  /** Which starting points the search uses: count exactly 1. */
  function AnchorMask(sp: seq<seq<int>>): (m: seq<seq<bool>>)
    requires Anchors.IsCountGrid(sp)
    ensures |m| == Height
    ensures forall y :: 0 <= y < Height ==> |m[y]| == Width
    ensures forall y, x :: InGrid(y, x) ==> (m[y][x] <==> sp[y][x] == 1)
  {
    seq(Height, y requires 0 <= y < Height =>
      seq(Width, x requires 0 <= x < Width => sp[y][x] == 1))
  }

  /** The starting points visited, as (y, x) in row-major order. */
  function AnchorsOf(sp: seq<seq<int>>): (anchors: seq<(int, int)>)
    requires Anchors.IsCountGrid(sp)
    ensures forall a :: a in anchors <==> InGrid(a.0, a.1) && sp[a.0][a.1] == 1
    ensures forall i, j :: 0 <= i < j < |anchors| ==> RowMajorBefore(anchors[i], anchors[j])
  {
    CellsOf(AnchorMask(sp))
  }

  /** The innermost loop: one candidate per filled cell, in the given order. */
  function AtAnchor(piece: char, step: nat, block: Pattern, a: (int, int), cells: seq<(int, int)>): (cands: seq<Candidate>)
    ensures |cands| == |cells|
    ensures forall c :: c in cands <==>
              c.piece == piece && c.step == step && c.block == block &&
              c.ay == a.0 && c.ax == a.1 && (c.oy, c.ox) in cells
  {
    if cells == [] then []
    else
      assert forall k :: 0 < k < |cells| ==> cells[k] in cells[1..];
      [Candidate(piece, step, block, a.0, a.1, cells[0].0, cells[0].1)] + AtAnchor(piece, step, block, a, cells[1..])
  }

  /** The anchor loops of one step: anchors in order, filled cells inside. */
  function AtAnchors(piece: char, step: nat, block: Pattern, anchors: seq<(int, int)>, cells: seq<(int, int)>): (cands: seq<Candidate>)
    ensures forall c :: c in cands <==>
              c.piece == piece && c.step == step && c.block == block &&
              (c.ay, c.ax) in anchors && (c.oy, c.ox) in cells
  {
    if anchors == [] then []
    else
      assert forall k :: 0 < k < |anchors| ==> anchors[k] in anchors[1..];
      AtAnchor(piece, step, block, anchors[0], cells) + AtAnchors(piece, step, block, anchors[1..], cells)
  }

  /** Loop steps s..7 of one piece whose catalog pattern is base. */
  function StepsFrom(piece: char, base: Pattern, s: nat, anchors: seq<(int, int)>): (cands: seq<Candidate>)
    requires IsPattern(base)
    ensures forall c :: c in cands <==>
              c.piece == piece && s <= c.step < 8 && c.block == Tried(base, c.step + 1) &&
              (c.ay, c.ax) in anchors && (c.oy, c.ox) in CellsOf(c.block)
    decreases 8 - s
  {
    if s >= 8 then []
    else
      var block := Tried(base, s + 1);
      AtAnchors(piece, s, block, anchors, CellsOf(block)) + StepsFrom(piece, base, s + 1, anchors)
  }

  /** The outer loop over the pieces still held, in list order. */
  function PieceCandidates(catalog: char -> Pattern, blocks: seq<char>, anchors: seq<(int, int)>): (cands: seq<Candidate>)
    requires CatalogCovers(catalog, blocks)
    ensures forall c :: c in cands <==>
              c.piece in blocks && c.step < 8 && c.block == Tried(catalog(c.piece), c.step + 1) &&
              (c.ay, c.ax) in anchors && (c.oy, c.ox) in CellsOf(c.block)
  {
    if blocks == [] then []
    else
      assert forall k :: 0 < k < |blocks| ==> blocks[k] in blocks[1..];
      StepsFrom(blocks[0], catalog(blocks[0]), 0, anchors) + PieceCandidates(catalog, blocks[1..], anchors)
  }

  /** Every candidate the search looks at, in the order it looks at them. */
  function SearchOrder(catalog: char -> Pattern, blocks: seq<char>, sp: seq<seq<int>>): seq<Candidate>
    requires CatalogCovers(catalog, blocks) && Anchors.IsCountGrid(sp)
  {
    PieceCandidates(catalog, blocks, AnchorsOf(sp))
  }

  /** A candidate of the search described without reference to the loops:
      a held piece, one of the eight steps with the block held at that step,
      a starting point whose count is exactly 1, and a filled cell of the
      block. */
  predicate IsCandidate(catalog: char -> Pattern, blocks: seq<char>, sp: seq<seq<int>>, c: Candidate)
    requires CatalogCovers(catalog, blocks) && Anchors.IsCountGrid(sp)
  {
    && c.piece in blocks
    && c.step < 8
    && c.block == Tried(catalog(c.piece), c.step + 1)
    && InGrid(c.ay, c.ax) && sp[c.ay][c.ax] == 1
    && 0 <= c.oy < Rows(c.block) && 0 <= c.ox < Cols(c.block) && c.block[c.oy][c.ox]
  }

  /** c is one of the listed piece's loop steps with the block of that step. */
  predicate Listed(catalog: char -> Pattern, blocks: seq<char>, c: Candidate)
    requires CatalogCovers(catalog, blocks)
  {
    c.piece in blocks && c.step < 8 && c.block == Tried(catalog(c.piece), c.step + 1)
  }

  lemma InSearchOrder(catalog: char -> Pattern, blocks: seq<char>, sp: seq<seq<int>>, c: Candidate)
    requires CatalogCovers(catalog, blocks) && Anchors.IsCountGrid(sp)
    ensures c in SearchOrder(catalog, blocks, sp) <==>
              Listed(catalog, blocks, c) && (c.ay, c.ax) in AnchorsOf(sp) && (c.oy, c.ox) in CellsOf(c.block)
  {
  }

  lemma InAnchors(sp: seq<seq<int>>, y: int, x: int)
    requires Anchors.IsCountGrid(sp)
    ensures (y, x) in AnchorsOf(sp) <==> InGrid(y, x) && sp[y][x] == 1
  {
  }

  /** The loops visit exactly the candidates. */
  lemma SearchOrderIsComplete(catalog: char -> Pattern, blocks: seq<char>, sp: seq<seq<int>>, c: Candidate)
    requires CatalogCovers(catalog, blocks) && Anchors.IsCountGrid(sp)
    ensures c in SearchOrder(catalog, blocks, sp) <==> IsCandidate(catalog, blocks, sp, c)
  {
    InSearchOrder(catalog, blocks, sp, c);
    InAnchors(sp, c.ay, c.ax);
    if Listed(catalog, blocks, c) {
      FilledCell(c.block, c.oy, c.ox);
    }
  }

  /** The running best of the loop over cands: the index of the first
      legal candidate whose score is strictly below every earlier legal
      one's, as `if score < best_score` keeps it. */
  function Best(g: Grid, player: int, cands: seq<Candidate>): (r: Option<nat>)
    requires IsGrid(g)
    ensures r.None? <==> forall k :: 0 <= k < |cands| ==> !Legal(g, cands[k])
    ensures r.Some? ==> r.value < |cands| && Legal(g, cands[r.value])
    ensures r.Some? ==> forall k :: 0 <= k < |cands| && Legal(g, cands[k]) ==>
              Score(player, cands[r.value]) <= Score(player, cands[k])
    ensures r.Some? ==> forall k :: 0 <= k < r.value && Legal(g, cands[k]) ==>
              Score(player, cands[r.value]) < Score(player, cands[k])
  {
    if |cands| == 0 then None
    else
      var prev := Best(g, player, cands[..|cands| - 1]);
      var last := cands[|cands| - 1];
      if Legal(g, last) && (prev.None? || Score(player, last) < Score(player, cands[prev.value])) then
        Some(|cands| - 1)
      else
        prev
  }

  /** find_placeable_position.  None stands for the all-None tuple.  The
      search reads the grid, the starting points and the pieces and changes
      none of them. */
  function FindPlaceablePosition(g: Grid, sp: seq<seq<int>>, blocks: seq<char>, catalog: char -> Pattern, player: int): (r: Option<Placement>)
    requires IsGrid(g) && Anchors.IsCountGrid(sp) && CatalogCovers(catalog, blocks)
    ensures r.Some? ==> r.value.piece in blocks && r.value.rotation < 4
    ensures r.Some? ==> 0 <= r.value.nx < Width - 1 && 0 <= r.value.ny < Height - 1
  {
    var cands := SearchOrder(catalog, blocks, sp);
    match Best(g, player, cands)
    case None => None
    case Some(k) =>
      assert cands[k] in cands;
      Some(PlacementOf(cands[k]))
  }

  /** The block the search tried at the loop step labelled (rotation, flip). */
  function BlockAt(catalog: char -> Pattern, piece: char, rotation: nat, flip: bool): (b: Pattern)
    requires IsPattern(catalog(piece))
    ensures IsPattern(b)
  {
    Tried(catalog(piece), StepOf(rotation, flip) + 1)
  }

  /** The loop body accepts placement p: a held piece, a non-negative
      corner, the block of that loop step passes all three checks there,
      and one of its filled cells sits on a starting point whose count is
      exactly 1. */
  predicate Accepted(g: Grid, sp: seq<seq<int>>, blocks: seq<char>, catalog: char -> Pattern, p: Placement)
    requires IsGrid(g) && Anchors.IsCountGrid(sp) && CatalogCovers(catalog, blocks)
  {
    && p.piece in blocks
    && 0 <= p.nx && 0 <= p.ny
    && var b := BlockAt(catalog, p.piece, p.rotation, p.flip);
    && !IsOutBoard(p.nx, p.ny, Cols(b), Rows(b))
    && !IsOverlap(g, b, p.nx, p.ny)
    && !IsAdjacent(g, p.nx, p.ny, Cols(b), Rows(b))
    && exists oy, ox :: 0 <= oy < Rows(b) && 0 <= ox < Cols(b) && b[oy][ox] &&
                        sp[p.ny + oy][p.nx + ox] == 1
  }

  /** A legal candidate's placement is accepted. */
  lemma CandidateAccepted(g: Grid, sp: seq<seq<int>>, blocks: seq<char>, catalog: char -> Pattern, c: Candidate)
    requires IsGrid(g) && Anchors.IsCountGrid(sp) && CatalogCovers(catalog, blocks)
    requires IsCandidate(catalog, blocks, sp, c) && Legal(g, c)
    ensures Accepted(g, sp, blocks, catalog, PlacementOf(c))
  {
    assert StepOf(StepRotation(c.step), StepFlip(c.step)) == c.step;
    var p := PlacementOf(c);
    var b := BlockAt(catalog, p.piece, p.rotation, p.flip);
    assert b == c.block;
    assert b[c.oy][c.ox] && sp[p.ny + c.oy][p.nx + c.ox] == 1;
  }

  /** A returned placement is one the loop body accepted. */
  lemma SearchSound(g: Grid, sp: seq<seq<int>>, blocks: seq<char>, catalog: char -> Pattern, player: int)
    requires IsGrid(g) && Anchors.IsCountGrid(sp) && CatalogCovers(catalog, blocks)
    ensures var r := FindPlaceablePosition(g, sp, blocks, catalog, player);
            r.Some? ==> Accepted(g, sp, blocks, catalog, r.value)
  {
    var cands := SearchOrder(catalog, blocks, sp);
    var best := Best(g, player, cands);
    if best.Some? {
      var c := cands[best.value];
      assert c in cands;
      SearchOrderIsComplete(catalog, blocks, sp, c);
      CandidateAccepted(g, sp, blocks, catalog, c);
    }
  }

  /** The returned placement is a best one: player 1 gets the smallest
      nx + ny among all legal candidates, any other player the largest. */
  lemma SearchOptimal(g: Grid, sp: seq<seq<int>>, blocks: seq<char>, catalog: char -> Pattern, player: int, c: Candidate)
    requires IsGrid(g) && Anchors.IsCountGrid(sp) && CatalogCovers(catalog, blocks)
    requires IsCandidate(catalog, blocks, sp, c) && Legal(g, c)
    ensures var r := FindPlaceablePosition(g, sp, blocks, catalog, player);
            && r.Some?
            && (player == 1 ==> r.value.nx + r.value.ny <= c.NX() + c.NY())
            && (player != 1 ==> r.value.nx + r.value.ny >= c.NX() + c.NY())
  {
    var cands := SearchOrder(catalog, blocks, sp);
    SearchOrderIsComplete(catalog, blocks, sp, c);
    var k :| 0 <= k < |cands| && cands[k] == c;
    var best := Best(g, player, cands);
    assert best.Some?;
    assert Score(player, cands[best.value]) <= Score(player, cands[k]);
  }

  /** The search finds nothing exactly when no candidate is legal. */
  lemma SearchNoneIffStuck(g: Grid, sp: seq<seq<int>>, blocks: seq<char>, catalog: char -> Pattern, player: int)
    requires IsGrid(g) && Anchors.IsCountGrid(sp) && CatalogCovers(catalog, blocks)
    ensures FindPlaceablePosition(g, sp, blocks, catalog, player).None? <==>
            forall c :: IsCandidate(catalog, blocks, sp, c) ==> !Legal(g, c)
  {
    var cands := SearchOrder(catalog, blocks, sp);
    var best := Best(g, player, cands);
    assert FindPlaceablePosition(g, sp, blocks, catalog, player).None? <==> best.None?;
    if best.None? {
      forall c | IsCandidate(catalog, blocks, sp, c)
        ensures !Legal(g, c)
      {
        SearchOrderIsComplete(catalog, blocks, sp, c);
      }
    } else {
      SearchOrderIsComplete(catalog, blocks, sp, cands[best.value]);
    }
  }

  /** Ties go to the earliest candidate in loop order: the returned
      placement comes from a legal candidate that every earlier legal
      candidate scores strictly worse than. */
  lemma SearchFirstBest(g: Grid, sp: seq<seq<int>>, blocks: seq<char>, catalog: char -> Pattern, player: int)
    requires IsGrid(g) && Anchors.IsCountGrid(sp) && CatalogCovers(catalog, blocks)
    ensures var r := FindPlaceablePosition(g, sp, blocks, catalog, player);
            var cands := SearchOrder(catalog, blocks, sp);
            r.Some? ==>
              exists k :: 0 <= k < |cands| && PlacementOf(cands[k]) == r.value && Legal(g, cands[k]) &&
                forall j :: 0 <= j < k && Legal(g, cands[j]) ==> Score(player, cands[j]) > Score(player, cands[k])
  {
    var cands := SearchOrder(catalog, blocks, sp);
    var best := Best(g, player, cands);
    if best.Some? {
      var k := best.value;
      assert PlacementOf(cands[k]) == FindPlaceablePosition(g, sp, blocks, catalog, player).value;
    }
  }
}
