/** Occupancy patterns of pieces and the two array transforms the search
    applies to them: a quarter turn counter-clockwise (numpy's rot90) and a
    left-right mirror (numpy's fliplr, i.e. flip along axis 1). */
module Geometry {

  /** A piece's bounding box, row by row; true marks a filled cell. */
  type Pattern = seq<seq<bool>>

  /** A non-empty rectangular 2-D array. */
  predicate IsPattern(p: Pattern) {
    |p| >= 1 && |p[0]| >= 1 && forall i :: 0 <= i < |p| ==> |p[i]| == |p[0]|
  }

  /** Height h of the bounding box (first component of numpy's shape). */
  function Rows(p: Pattern): nat {
    |p|
  }

  /** Width w of the bounding box (second component of numpy's shape). */
  function Cols(p: Pattern): nat {
    if |p| == 0 then 0 else |p[0]|
  }

  /** Two patterns of the same shape with the same cells are equal. */
  lemma PatternExt(a: Pattern, b: Pattern)
    requires IsPattern(a) && IsPattern(b)
    requires Rows(a) == Rows(b) && Cols(a) == Cols(b)
    requires forall i, j :: 0 <= i < Rows(a) && 0 <= j < Cols(a) ==> a[i][j] == b[i][j]
    ensures a == b
  {
    forall i | 0 <= i < Rows(a)
      ensures a[i] == b[i]
    {
      assert |a[i]| == |b[i]|;
      assert forall j :: 0 <= j < |a[i]| ==> a[i][j] == b[i][j];
    }
  }

  /** Row i of a quarter turn: column w - 1 - i of p, read top to bottom. */
  function Rot90Row(p: Pattern, i: int): (row: seq<bool>)
    requires IsPattern(p) && 0 <= i < Cols(p)
    ensures |row| == Rows(p)
  {
    seq(Rows(p), j requires 0 <= j < Rows(p) => p[j][Cols(p) - 1 - i])
  }

  /** One quarter turn counter-clockwise: the last column becomes the first
      row, so cell (i, j) of the result is cell (j, w - 1 - i) of p. */
  function Rot90(p: Pattern): (r: Pattern)
    requires IsPattern(p)
    ensures IsPattern(r)
    ensures Rows(r) == Cols(p) && Cols(r) == Rows(p)
  {
    seq(Cols(p), i requires 0 <= i < Cols(p) => Rot90Row(p, i))
  }

  /** numpy.rot90(p, k): k quarter turns counter-clockwise. */
  function Rot(p: Pattern, k: nat): (r: Pattern)
    requires IsPattern(p)
    ensures IsPattern(r)
    ensures k % 2 == 0 ==> Rows(r) == Rows(p) && Cols(r) == Cols(p)
    ensures k % 2 == 1 ==> Rows(r) == Cols(p) && Cols(r) == Rows(p)
  {
    if k == 0 then p else Rot90(Rot(p, k - 1))
  }

  /** Row i of a mirror image: row i of p read right to left. */
  function FlipRow(p: Pattern, i: int): (row: seq<bool>)
    requires IsPattern(p) && 0 <= i < Rows(p)
    ensures |row| == Cols(p)
  {
    seq(Cols(p), j requires 0 <= j < Cols(p) => p[i][Cols(p) - 1 - j])
  }

  /** numpy.flip(p, axis=1): mirror the columns. */
  function FlipLR(p: Pattern): (r: Pattern)
    requires IsPattern(p)
    ensures IsPattern(r)
    ensures Rows(r) == Rows(p) && Cols(r) == Cols(p)
  {
    seq(Rows(p), i requires 0 <= i < Rows(p) => FlipRow(p, i))
  }

  /** Cell (i, j) of a quarter turn is cell (j, w - 1 - i) of p: the turn
      is counter-clockwise, and one turn of Rot is exactly this. */
  lemma Rot90At(p: Pattern, i: int, j: int)
    requires IsPattern(p) && 0 <= i < Cols(p) && 0 <= j < Rows(p)
    ensures Rot90(p)[i][j] == p[j][Cols(p) - 1 - i]
    ensures Rot(p, 1)[i][j] == p[j][Cols(p) - 1 - i]
  {
    assert Rot90(p)[i] == Rot90Row(p, i);
  }

  lemma FlipAt(p: Pattern, i: int, j: int)
    requires IsPattern(p) && 0 <= i < Rows(p) && 0 <= j < Cols(p)
    ensures FlipLR(p)[i][j] == p[i][Cols(p) - 1 - j]
  {
    assert FlipLR(p)[i] == FlipRow(p, i);
  }

  /** Turns add up. */
  lemma {:induction false} RotAdd(p: Pattern, a: nat, b: nat)
    requires IsPattern(p)
    ensures Rot(Rot(p, a), b) == Rot(p, a + b)
    decreases b
  {
    if b > 0 {
      RotAdd(p, a, b - 1);
      assert Rot(Rot(p, a), b) == Rot90(Rot(Rot(p, a), b - 1));
    }
  }

  /** A half turn sends cell (i, j) to (h - 1 - i, w - 1 - j). */
  lemma HalfTurnAt(p: Pattern, i: int, j: int)
    requires IsPattern(p) && 0 <= i < Rows(p) && 0 <= j < Cols(p)
    ensures Rot(p, 2)[i][j] == p[Rows(p) - 1 - i][Cols(p) - 1 - j]
  {
    var h, w := Rows(p), Cols(p);
    var q := Rot90(p);
    assert Rot(p, 2) == Rot90(q) by {
      assert Rot(p, 1) == q;
    }
    assert Rot90(q)[i] == Rot90Row(q, i);
    assert Rot90Row(q, i)[j] == q[j][h - 1 - i];
    assert q[j] == Rot90Row(p, j);
    assert Rot90Row(p, j)[h - 1 - i] == p[h - 1 - i][w - 1 - j];
  }

  /** Row i of a half turn: row h - 1 - i of p read right to left. */
  function HalfTurnRow(p: Pattern, i: int): (row: seq<bool>)
    requires IsPattern(p) && 0 <= i < Rows(p)
    ensures |row| == Cols(p)
  {
    seq(Cols(p), j requires 0 <= j < Cols(p) => p[Rows(p) - 1 - i][Cols(p) - 1 - j])
  }

  /** A half turn written out directly. */
  function HalfTurn(p: Pattern): (r: Pattern)
    requires IsPattern(p)
    ensures IsPattern(r)
    ensures Rows(r) == Rows(p) && Cols(r) == Cols(p)
  {
    seq(Rows(p), i requires 0 <= i < Rows(p) => HalfTurnRow(p, i))
  }

  lemma HalfTurnCell(p: Pattern, i: int, j: int)
    requires IsPattern(p) && 0 <= i < Rows(p) && 0 <= j < Cols(p)
    ensures HalfTurn(p)[i][j] == p[Rows(p) - 1 - i][Cols(p) - 1 - j]
  {
    assert HalfTurn(p)[i] == HalfTurnRow(p, i);
  }

  /** Two quarter turns are the direct half turn. */
  lemma RotTwo(p: Pattern)
    requires IsPattern(p)
    ensures Rot(p, 2) == HalfTurn(p)
  {
    forall i, j | 0 <= i < Rows(p) && 0 <= j < Cols(p)
      ensures Rot(p, 2)[i][j] == HalfTurn(p)[i][j]
    {
      HalfTurnAt(p, i, j);
      HalfTurnCell(p, i, j);
    }
    PatternExt(Rot(p, 2), HalfTurn(p));
  }

  lemma HalfTurnTwice(p: Pattern)
    requires IsPattern(p)
    ensures HalfTurn(HalfTurn(p)) == p
  {
    var q := HalfTurn(p);
    forall i, j | 0 <= i < Rows(p) && 0 <= j < Cols(p)
      ensures HalfTurn(q)[i][j] == p[i][j]
    {
      HalfTurnCell(q, i, j);
      HalfTurnCell(p, Rows(p) - 1 - i, Cols(p) - 1 - j);
    }
    PatternExt(HalfTurn(q), p);
  }

  /** Four quarter turns are the identity (rotation is cyclic of order 4). */
  lemma FullTurn(p: Pattern)
    requires IsPattern(p)
    ensures Rot(p, 4) == p
  {
    RotAdd(p, 2, 2);
    RotTwo(p);
    RotTwo(Rot(p, 2));
    HalfTurnTwice(p);
  }

  /** Turning by k and then by the remaining (4 - k) % 4 quarter turns
      gives the pattern back. */
  lemma RotInverse(p: Pattern, k: nat)
    requires IsPattern(p) && k < 4
    ensures Rot(Rot(p, k), (4 - k) % 4) == p
  {
    if k == 0 {
      assert Rot(p, 0) == p;
    } else {
      assert (4 - k) % 4 == 4 - k;
      RotAdd(p, k, 4 - k);
      FullTurn(p);
    }
  }

  /** Mirroring twice is the identity. */
  lemma FlipTwice(p: Pattern)
    requires IsPattern(p)
    ensures FlipLR(FlipLR(p)) == p
  {
    forall i, j | 0 <= i < Rows(p) && 0 <= j < Cols(p)
      ensures FlipLR(FlipLR(p))[i][j] == p[i][j]
    {
      FlipAt(FlipLR(p), i, j);
      FlipAt(p, i, Cols(p) - 1 - j);
    }
    PatternExt(FlipLR(FlipLR(p)), p);
  }

  lemma FlipHalfTurnDirect(p: Pattern)
    requires IsPattern(p)
    ensures FlipLR(HalfTurn(p)) == HalfTurn(FlipLR(p))
  {
    var h, w := Rows(p), Cols(p);
    forall i, j | 0 <= i < h && 0 <= j < w
      ensures FlipLR(HalfTurn(p))[i][j] == HalfTurn(FlipLR(p))[i][j]
    {
      FlipAt(HalfTurn(p), i, j);
      HalfTurnCell(p, i, w - 1 - j);
      HalfTurnCell(FlipLR(p), i, j);
      FlipAt(p, h - 1 - i, w - 1 - j);
    }
    PatternExt(FlipLR(HalfTurn(p)), HalfTurn(FlipLR(p)));
  }

  /** A mirror commutes with a half turn. */
  lemma FlipHalfTurn(p: Pattern)
    requires IsPattern(p)
    ensures FlipLR(Rot(p, 2)) == Rot(FlipLR(p), 2)
  {
    RotTwo(p);
    RotTwo(FlipLR(p));
    FlipHalfTurnDirect(p);
  }

  /** Cells in row-major order: (r1, c1) is visited before (r2, c2). */
  predicate RowMajorBefore(a: (int, int), b: (int, int)) {
    a.0 < b.0 || (a.0 == b.0 && a.1 < b.1)
  }

  /** The true cells of row i from column j on, left to right. */
  function RowCells(m: seq<seq<bool>>, i: int, j: nat): (cells: seq<(int, int)>)
    requires 0 <= i < |m| && j <= |m[i]|
    ensures forall c :: c in cells <==> c.0 == i && j <= c.1 < |m[i]| && m[i][c.1]
    ensures forall a, b :: 0 <= a < b < |cells| ==> cells[a].1 < cells[b].1
    decreases |m[i]| - j
  {
    if j == |m[i]| then []
    else (if m[i][j] then [(i, j)] else []) + RowCells(m, i, j + 1)
  }

  /** The true cells of rows i.. in row-major order. */
  function CellsFrom(m: seq<seq<bool>>, i: nat): (cells: seq<(int, int)>)
    requires i <= |m|
    ensures forall c :: c in cells <==> i <= c.0 < |m| && 0 <= c.1 < |m[c.0]| && m[c.0][c.1]
    ensures forall a, b :: 0 <= a < b < |cells| ==> RowMajorBefore(cells[a], cells[b])
    decreases |m| - i
  {
    if i == |m| then []
    else
      var row := RowCells(m, i, 0);
      var rest := CellsFrom(m, i + 1);
      assert forall a :: 0 <= a < |row| ==> row[a] in row && row[a].0 == i;
      assert forall b :: 0 <= b < |rest| ==> rest[b] in rest && rest[b].0 > i;
      row + rest
  }

  /** numpy.where(m == 1) read pairwise: every true cell (row, column),
      each exactly once, in row-major order. */
  function CellsOf(m: seq<seq<bool>>): (cells: seq<(int, int)>)
    ensures forall c :: c in cells <==> 0 <= c.0 < |m| && 0 <= c.1 < |m[c.0]| && m[c.0][c.1]
    ensures forall a, b :: 0 <= a < b < |cells| ==> RowMajorBefore(cells[a], cells[b])
  {
    CellsFrom(m, 0)
  }

  /** For a pattern, CellsOf lists exactly its filled cells. */
  lemma FilledCell(b: Pattern, oy: int, ox: int)
    requires IsPattern(b)
    ensures (oy, ox) in CellsOf(b) <==> 0 <= oy < Rows(b) && 0 <= ox < Cols(b) && b[oy][ox]
  {
    if 0 <= oy < Rows(b) {
      assert |b[oy]| == Cols(b);
    }
  }
}
