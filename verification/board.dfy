/** The player's view of the 14×14 board: cell states, the grid, and the
    parser that turns the bordered text board received each turn into a grid
    of Empty / Own / Other cells. */
module Board {

  datatype Option<T> = None | Some(value: T)

  /** BOARD_WIDTH and BOARD_HEIGHT of the client. */
  const Width: int := 14
  const Height: int := 14

  /** A cell as the client stores it: 0 (empty), 1 (own piece), 2 (other). */
  datatype Cell = Empty | Own | Other

  /** The numeric value the client keeps in its board array for a cell. */
  function Value(c: Cell): (v: int)
    ensures 0 <= v <= 2
    ensures v == 0 <==> c == Empty
    ensures v == 1 <==> c == Own
  {
    match c
    case Empty => 0
    case Own => 1
    case Other => 2
  }

  type Grid = seq<seq<Cell>>

  predicate IsGrid(g: Grid) {
    |g| == Height && forall r :: 0 <= r < Height ==> |g[r]| == Width
  }

  predicate InGrid(r: int, c: int) {
    0 <= r < Height && 0 <= c < Width
  }

  /** How one interior character of the wire board is read: '.' is checked
      first, then the player's own mark; every other character is the
      opponent's.  Before the first turn the mark is unset and matches no
      character. */
  function Classify(ch: char, mark: Option<char>): Cell {
    if ch == '.' then Empty
    else if mark == Some(ch) then Own
    else Other
  }

  /** The raw board has every cell the parser reads: rows 1..14 exist and
      each of them has columns 1..14.  Row 0, column 0 and anything past
      row or column 14 are never looked at. */
  predicate HasInterior(raw: seq<string>) {
    |raw| > Height && forall r :: 1 <= r <= Height ==> |raw[r]| > Width
  }

  /** One interior row: columns 1..14 of a raw line. */
  function ParseRow(line: string, mark: Option<char>): (row: seq<Cell>)
    requires |line| > Width
    ensures |row| == Width
    ensures forall xi :: 0 <= xi < Width ==> row[xi] == Classify(line[xi + 1], mark)
  {
    seq(Width, xi requires 0 <= xi < Width => Classify(line[xi + 1], mark))
  }

  /** Reads interior cell (yi, xi) from raw[yi + 1][xi + 1].  A board that
      is too small makes the client fail with an index error: None. */
  function ParseBoard(raw: seq<string>, mark: Option<char>): (r: Option<Grid>)
    ensures r.Some? <==> HasInterior(raw)
    ensures r.Some? ==> IsGrid(r.value)
    ensures r.Some? ==> forall yi, xi :: 0 <= yi < Height && 0 <= xi < Width ==>
              (r.value[yi][xi] == Empty <==> raw[yi + 1][xi + 1] == '.')
    ensures r.Some? ==> forall yi, xi :: 0 <= yi < Height && 0 <= xi < Width ==>
              (r.value[yi][xi] == Own <==> raw[yi + 1][xi + 1] != '.' && mark == Some(raw[yi + 1][xi + 1]))
  {
    if HasInterior(raw) then
      Some(seq(Height, yi requires 0 <= yi < Height => ParseRow(raw[yi + 1], mark)))
    else
      None
  }

  /** The parser never reads the border: two raw boards that agree on the
      interior parse to the same grid. */
  lemma ParseIgnoresBorder(raw1: seq<string>, raw2: seq<string>, mark: Option<char>)
    requires HasInterior(raw1) && HasInterior(raw2)
    requires forall yi, xi :: InGrid(yi, xi) ==> raw1[yi + 1][xi + 1] == raw2[yi + 1][xi + 1]
    ensures ParseBoard(raw1, mark) == ParseBoard(raw2, mark)
  {
    var g1 := ParseBoard(raw1, mark).value;
    var g2 := ParseBoard(raw2, mark).value;
    forall yi | 0 <= yi < Height
      ensures g1[yi] == g2[yi]
    {
      assert forall xi :: 0 <= xi < Width ==> g1[yi][xi] == g2[yi][xi] by {
        forall xi | 0 <= xi < Width
          ensures g1[yi][xi] == g2[yi][xi]
        {
          assert InGrid(yi, xi);
        }
      }
    }
    assert g1 == g2;
  }

  /** The character a cell is written as on the wire. */
  function CellChar(c: Cell, own: char, other: char): char {
    match c
    case Empty => '.'
    case Own => own
    case Other => other
  }

  /** A bordered text board for a grid: a border row, 14 rows of a border
      character, 14 cells and a border character, and a closing border row. */
  function RenderBoard(g: Grid, own: char, other: char, border: char): (raw: seq<string>)
    requires IsGrid(g)
    ensures |raw| == Height + 2
    ensures forall r :: 0 <= r < |raw| ==> |raw[r]| == Width + 2
  {
    var edge := seq(Width + 2, _ => border);
    [edge]
    + seq(Height, yi requires 0 <= yi < Height =>
          [border] + seq(Width, xi requires 0 <= xi < Width => CellChar(g[yi][xi], own, other)) + [border])
    + [edge]
  }

  /** Rendering a grid with distinct own and other marks and parsing it back
      with the own mark gives the grid back. */
  lemma {:induction false} ParseRenderRoundTrip(g: Grid, own: char, other: char, border: char)
    requires IsGrid(g)
    requires own != '.' && other != '.' && own != other
    ensures ParseBoard(RenderBoard(g, own, other, border), Some(own)) == Some(g)
  {
    var raw := RenderBoard(g, own, other, border);
    assert HasInterior(raw);
    var p := ParseBoard(raw, Some(own)).value;
    forall yi | 0 <= yi < Height
      ensures p[yi] == g[yi]
    {
      forall xi | 0 <= xi < Width
        ensures p[yi][xi] == g[yi][xi]
      {
        assert raw[yi + 1][xi + 1] == CellChar(g[yi][xi], own, other);
      }
    }
    assert p == g;
  }
}
