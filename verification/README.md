# Placement engine of the ft_player client

This project models, in Dafny, how the `PlayerClient` of a two-player
tile-placement game decides its moves on a fixed 14×14 board. The model
covers the following:

- **Board parsing.** The bordered text board received each turn becomes a
  grid of empty, own and opponent cells (`board.dfy`).
- **Piece transforms.** The two numpy transforms the search applies to piece
  patterns are a counter-clockwise quarter turn and a left-right mirror
  (`geometry.dfy`). The search applies them cumulatively in its
  rotation/flip loops (`orientation.dfy`).
- **Legality checks.** Three checks reject a placement: out of the board,
  overlap, and side contact with an own piece (`legality.dfy`).
- **Starting points.** A scan counts, for every empty cell, the own cells
  diagonal to it (`anchors.dfy`).
- **Greedy search.** The search tries piece × loop step × starting point ×
  filled cell, scores each placement with `evaluate_position`, and keeps
  the first strictly best one (`search.dfy`). The nested loops are an
  explicit candidate sequence in loop order (`order.dfy` proves that order).
  The running best is a fold over that sequence that returns an index.
- **Move token.** The token is the piece letter, the orientation code and the
  1-based column and row in uppercase hexadecimal. `gen_action` numbers the
  orientations (`codec.dfy`).
- **Client state.** The fields `blocks`, `turn` and `mark`, as `__init__`
  sets them and the opening turn of `create_action` updates them
  (`client.dfy`).

The model follows the code as written. These parts of its behaviour are
proved as lemmas:

- **Orientations accumulate.** The block variable is reassigned inside the
  rotation/flip loops, so each step transforms the previous step's block.
  The blocks tried are F, F, R, R², F, R²F, R, I, where F is the mirror and
  R a quarter turn (`Orientation.TriedOrientations`). The clockwise quarter
  turn of an L tetromino is never tried
  (`Orientation.ClockwiseQuarterTurnMissed`).
- **Only the opening move is ever sent.** After turn 0, `create_action` binds
  four names to the five values the search returns. The call raises there,
  so the encoding lines and the `'X000'` return are never reached
  (`Client.NoMoveAfterOpening`). The encoding is modelled as a function on
  its own (`Codec.EncodeMove`). `gen_action` is never called anywhere in the
  client: the token line writes whatever value the unpacking binds to
  `action`. `Codec.GenAction` models the function as written, and only the
  corrected `create_action` under "Findings" uses it.
- **The checks are strict.** The bounds check uses `>=`, so the last row and
  the last column are never used. The overlap check rejects any opponent
  cell in the bounding box. The adjacency check inspects four strips along
  the box's sides and never the ring's corners.

The piece catalog is a parameter `catalog: char -> Pattern`. The search
requires only that every held piece maps to a non-empty rectangular pattern.

Three details of the code that the model keeps:

- **Board size.** The parser reads only rows 1..14 and columns 1..14 of the
  received text, so any text that has those cells parses, whatever its
  border. A smaller one raises `IndexError`, which is `None` here.
- **Orientation code.** The token writes the integer `action` in decimal.
  `gen_action` numbers the orientations `rotation * 2 + (1 if flip else 0)`.
- **Turn counter.** The `'X000'` return leaves `turn` unchanged; only a sent
  placement counts a turn.

## Model

| member | source | states |
|---|---|---|
| Board.ParseBoard | ft_player/PlayerClient.py:74-82 | parsing succeeds exactly when rows 1..14 and columns 1..14 of the text exist; then cell (yi, xi) is empty iff character (yi+1, xi+1) is '.', and own iff it is some other character equal to the mark |
| Board.ParseIgnoresBorder | ft_player/PlayerClient.py:74-82 | two texts that agree on the interior parse to the same grid: the border row and column are never read as cells |
| Board.ParseRenderRoundTrip | ft_player/PlayerClient.py:74-82 | rendering a grid with two distinct non-'.' marks and parsing it with the own mark returns the grid |
| Geometry.Rot90 | ft_player/PlayerClient.py:177 | a quarter turn swaps the height and the width and keeps the pattern rectangular |
| Geometry.Rot90At | ft_player/PlayerClient.py:177 | the quarter turn is counter-clockwise: cell (i, j) of the result is cell (j, w-1-i) of the pattern, for one step of `Rot` as well |
| Geometry.Rot | ft_player/PlayerClient.py:177 | `rot90(p, k)` keeps the shape for even k and swaps height and width for odd k |
| Geometry.FlipLR | ft_player/PlayerClient.py:176 | mirroring keeps the shape |
| Geometry.RotAdd | ft_player/PlayerClient.py:177 | a turn by a followed by a turn by b is a turn by a + b |
| Geometry.FullTurn | ft_player/PlayerClient.py:177 | four quarter turns give the pattern back |
| Geometry.RotInverse | ft_player/PlayerClient.py:177 | a turn by k < 4 is undone by a turn by (4 - k) % 4 |
| Geometry.FlipTwice | ft_player/PlayerClient.py:176 | mirroring twice gives the pattern back |
| Geometry.HalfTurnAt | ft_player/PlayerClient.py:177 | a half turn sends cell (i, j) to (h-1-i, w-1-j) |
| Geometry.RotTwo | ft_player/PlayerClient.py:177 | `rot90(p, 2)` equals the direct half turn that reads p backwards in both directions |
| Geometry.FlipHalfTurn | ft_player/PlayerClient.py:176-177 | mirroring commutes with a half turn |
| Geometry.CellsOf | ft_player/PlayerClient.py:180 | `np.where(block == 1)` lists every filled cell exactly once, in row-major order |
| Geometry.FilledCell | ft_player/PlayerClient.py:180 | for a pattern, a pair is listed iff it is inside the box and filled |
| Orientation.StepOf | ft_player/PlayerClient.py:173-174 | each (rotation, flip) label pair belongs to exactly one loop step, flip=True first; rotations 0..3 give steps 0..7 |
| Orientation.Tried | ft_player/PlayerClient.py:173-177 | the block held after any number of loop steps is a proper pattern with the catalog pattern's shape or its transpose |
| Orientation.TriedOrientations | ft_player/PlayerClient.py:173-177 | the cumulative blocks of the eight steps are F, F, R, R², F, R²F, R, I; after the last step the catalog pattern is back |
| Orientation.ClockwiseQuarterTurnMissed | ft_player/PlayerClient.py:173-177 | for the L tetromino, the clockwise quarter turn is none of the eight blocks tried |
| Legality.IsOutBoard | ft_player/PlayerClient.py:84-88 | an accepted box with a non-negative corner lies on the board and avoids the last row and the last column; a rejected non-empty box reaches one of them |
| Legality.IsOverlap | ft_player/PlayerClient.py:90-94 | board + block > 1 somewhere in the box iff the box holds an opponent cell anywhere, or an own cell under a filled cell of the block |
| Legality.IsAdjacent | ft_player/PlayerClient.py:96-104 | on the top row the top strip falls on the box's own first row, and in the left column the left strip falls on its first column, so an own cell there rejects the placement |
| Legality.AdjacencyIsSideContact | ft_player/PlayerClient.py:96-104 | away from the top and left edges, the strip test holds iff an own cell outside the box shares a side with a cell of the box; the block's shape and the ring's corners play no part |
| Legality.AdjacencyWithClamp | ft_player/PlayerClient.py:96-104 | for every box the search can test, edges included, the strip test holds iff an own cell outside the box shares a side with it, or the box is on the top row with an own cell in its first row, or in the left column with an own cell in its first column |
| Anchors.OwnDiagonals | ft_player/PlayerClient.py:136-140 | the count of own diagonal neighbours is at most 4, and 0 iff none of the four on-board diagonals is own |
| Anchors.StartingPoint | ft_player/PlayerClient.py:128-140 | the expected count is in 0..4, and at least 1 iff the cell is empty and touches an own cell diagonally |
| Anchors.Bump | ft_player/PlayerClient.py:138-140 | one guarded `+= 1` raises exactly the target cell by one when it is on the board and empty, and changes nothing else |
| Anchors.IdentifyStartingPoints | ft_player/PlayerClient.py:128-140 | the scatter walk over own cells leaves every cell holding its number of own diagonal neighbours if it is empty, and 0 if it is occupied |
| Anchors.ScanIsStartingPoints | ft_player/PlayerClient.py:128-140 | a count grid that agrees with the scan cell by cell is the whole starting-point grid, the one the corrected call searches with |
| Search.AnchorsOf | ft_player/PlayerClient.py:181-184 | the anchor loops visit exactly the cells whose count is 1, in row-major order |
| Search.AtAnchor | ft_player/PlayerClient.py:186-187 | one candidate per filled cell, with the block's corner shifted so that the filled cell lands on the anchor |
| Search.AtAnchors | ft_player/PlayerClient.py:181-187 | the candidates of one loop step are every anchor paired with every filled cell |
| Search.StepsFrom | ft_player/PlayerClient.py:173-187 | the candidates of one piece cover every loop step with the block held at that step |
| Search.PieceCandidates | ft_player/PlayerClient.py:170-187 | the candidates cover every held piece |
| Search.SearchOrderIsComplete | ft_player/PlayerClient.py:170-187 | the loops visit a candidate iff it is a held piece, a loop step with its block, an anchor with count 1, and a filled cell of that block |
| LoopOrder.SearchOrderIsLoopOrder | ft_player/PlayerClient.py:170-186 | with no piece held twice, the candidates come in the loops' lexicographic order: list position of the piece, then loop step, then anchor row-major, then filled cell row-major |
| Search.EvaluatePosition | ft_player/PlayerClient.py:160-165 | for a corner on the board, player 1's score is its distance in steps from the top-left board corner, any other player's is its distance from the bottom-right corner less 26; `Search.SearchOptimal` is what this ordering buys |
| Search.Legal | ft_player/PlayerClient.py:189-196 | a candidate that passes every check has its box inside rows and columns 0..12, no opponent cell anywhere in the box, and only empty cells under the block's filled cells |
| Search.Best | ft_player/PlayerClient.py:198-202 | the fold finds nothing iff no candidate passes the checks; otherwise it picks a passing candidate whose score is at most every passing one's and strictly below every earlier passing one's |
| Search.FindPlaceablePosition | ft_player/PlayerClient.py:167-203 | a result names a held piece and a rotation below 4, and its corner lies in columns and rows 0..12 |
| Search.CandidateAccepted | ft_player/PlayerClient.py:187-196 | a candidate that passes the checks gives a placement the loop body accepts under its (rotation, flip) labels |
| Search.SearchSound | ft_player/PlayerClient.py:181-202 | a result is a held piece with a non-negative corner; the block of that loop step fails none of the three checks; a filled cell of it sits on a starting point whose count is 1 |
| Search.SearchOptimal | ft_player/PlayerClient.py:160-165 | whenever some candidate passes, a result exists; player 1's result has the smallest nx + ny of all passing candidates, any other player's the largest |
| Search.SearchNoneIffStuck | ft_player/PlayerClient.py:167-169 | the all-None result comes back iff no candidate passes the checks |
| Search.SearchFirstBest | ft_player/PlayerClient.py:200-202 | the result comes from a passing candidate that every earlier passing candidate scores strictly worse than, so ties go to the earliest |
| Codec.GenAction | ft_player/PlayerClient.py:142-158 | a code exists iff the rotation is in 0..3, and it is below 8 |
| Codec.GenActionInverse | ft_player/PlayerClient.py:142-158 | the eight codes are in one-to-one correspondence with the eight (rotation, flip) pairs: code c stands for rotation c / 2, flipped iff c is odd |
| Codec.DigitRoundTrip | ft_player/PlayerClient.py:58-59 | uppercase hex digits and their values convert both ways |
| Codec.Numeral | ft_player/PlayerClient.py:58-59 | a numeral has no leading zero and only digits below the base; it is one digit long iff the number is below the base |
| Codec.NumeralRoundTrip | ft_player/PlayerClient.py:58-59 | reading a numeral back gives the number written |
| Codec.Hex | ft_player/PlayerClient.py:58-59 | numbers 0..15 are one uppercase digit, larger ones take at least two |
| Codec.Decimal | ft_player/PlayerClient.py:61 | a code 0..9 is written as one digit |
| Codec.EncodeMove | ft_player/PlayerClient.py:58-61 | the token starts with the piece letter and has at least four characters; with a one-digit code and coordinates 0..14 it is exactly letter, code digit and the two 1-based hex digits; `Codec.EncodeDecode` and `Codec.DecodeEncode` are its inverse |
| Codec.DecodeMove | ft_player/PlayerClient.py:58-61 | a token that reads as a placement has four characters, a code below 10 and coordinates 0..14 |
| Codec.EncodeDecode | ft_player/PlayerClient.py:58-61 | every placement with code below 10 and coordinates 0..14 encodes to four characters that read back as the same fields |
| Codec.DecodeEncode | ft_player/PlayerClient.py:58-61 | every token that reads as a placement is exactly the encoding of the fields it reads as |
| Codec.WideCoordinate | ft_player/PlayerClient.py:58-61 | a coordinate of 15 or more makes the token longer than four characters, so it does not read as a placement |
| Codec.PassIsNotAPlacement | ft_player/PlayerClient.py:64 | the pass token `X000` never reads as a placement |
| Client.Init | ft_player/PlayerClient.py:15-18 | a fresh client holds exactly the 21 pieces 'A'..'U', in strictly decreasing order from 'U', at turn 0 with no mark |
| Client.CreateAction | ft_player/PlayerClient.py:37-64 | turn 0 sets the role's mark and turn 1 and, with pieces held, drops exactly the first piece and sends the role's opening token, or raises on an empty list; any later turn raises and changes nothing |
| Client.OpeningTurn | ft_player/PlayerClient.py:41-51 | from a fresh client the opening token names the piece that leaves the list ('U', no longer held), code 0, at column 3 row 4 for player 1 and column 8 row 9 otherwise; 20 pieces remain |
| Client.HeldPiecesDistinct | ft_player/PlayerClient.py:15 | a fresh client holds no piece twice, and still holds none twice after the opening |
| Client.NoMoveAfterOpening | ft_player/PlayerClient.py:53-54 | after the opening, the next call raises on the four-into-five unpacking |
| Client.StepCode | ft_player/PlayerClient.py:173-174 | the code of loop step s is s with its lowest bit toggled, because the loop tries flip=True first and `gen_action` numbers it second |
| Client.SearchResultEncodes | ft_player/PlayerClient.py:58-61 | with the code taken from `gen_action`, every search result encodes to a four-character token that reads back as its piece, code and corner (the encoding step of the corrected call below) |
| Client.RemoveFirst | ft_player/PlayerClient.py:57 | `list.remove` shortens the list by one: it keeps every entry before the piece's first occurrence and shifts every later one down by one |
| Client.RemoveFirstCount | ft_player/PlayerClient.py:57 | exactly one copy of the piece leaves the list |
| Client.IntendedCreateAction | ft_player/PlayerClient.py:37-64 | with the unpacking corrected: the opening is unchanged, and no later turn raises |
| Client.IntendedMoveIsAccepted | ft_player/PlayerClient.py:53-64 | after the opening the corrected call passes iff no candidate passes the checks, and then changes nothing; otherwise its token reads as a held piece, a code below 8 and a corner that the search accepts under the code's labels, one copy of the piece leaves the list and the turn is counted |

## Left out

- Network and async I/O are not modelled: `play`, `create`, `close`, the socket and the event loop (ft_player/PlayerClient.py:24-35, 66-72). Splitting the received text into lines is not modelled either; the parser takes the lines.
- `put` (ft_player/PlayerClient.py:106-126) is not modelled. Nothing calls it, and as written it calls `is_overlap` with too few arguments.
- The piece catalog `ft_player.BlockType` is not part of this model. It is a parameter, and only its patterns' shapes matter.
- numpy is modelled only through `rot90` (counter-clockwise), `flip(axis=1)` and `where`, on boolean patterns. The board's float storage is modelled as the three cell values.
- The `float('inf')` starting score is replaced by `None` in the fold.
- The `player_number` property and `setup.py` are not modelled; they are accessors and packaging.
- Board.ParseBoard: on a text too small to parse, the client has already overwritten some rows before it raises. The model returns `None` and does not describe the partly written board.
- Legality.IsOverlap: requires the box to lie on the board. With a box that sticks out, numpy clips the slice, and the addition then either raises or broadcasts (a 2×1 block at y = 13 gives a 1×1 slice that broadcasts against it). The search never calls the check with such a box: the bounds test comes first.
- Legality.IsAdjacent: requires the box to end before the last row and column. There, `min(14, ·)` indexes row or column 14, which raises. The search calls the check only after the bounds test, which excludes that case. Negative corners, where numpy would wrap around, are excluded the same way.
- Legality.AdjacencyIsSideContact: states the geometric reading only for boxes that do not touch the top or left edge. `Legality.AdjacencyWithClamp` gives the two-way statement for every box, edges included.
- Client.CreateAction: after turn 0 the client recomputes its starting points before the unpacking raises. That field is not part of the modelled state.
- Client.IntendedCreateAction: the corrected call computes the starting points from the grid it is given rather than storing them in a field, and the model's other lemmas (`Client.OpeningTurn`, `Client.NoMoveAfterOpening`) describe `Client.CreateAction`, the code as written.
- That the search leaves the board and the piece list unchanged is not a separate clause. The search is a pure function of the grid, the starting points and the pieces, so it cannot change them.

## Findings

| source | as written | input that shows it | evidently intended | confidence | as-written member | corrected member |
|---|---|---|---|---|---|---|
| ft_player/PlayerClient.py:54 | `block_type, x, y, action = self.find_placeable_position()` binds four names to the five-tuple `(block_type, nx, ny, rotation, flip)` (or five `None`s), so it raises `ValueError` on every turn after the opening, and no placement or pass is ever sent | any second call after the opening: `CreateAction(CreateAction(Init(1)).0)` | unpack `(block_type, x, y, rotation, flip)` and send `gen_action(rotation, flip)` as the code, passing with `'X000'` when `block_type` is `None` | high (not executed) | Client.NoMoveAfterOpening | Client.IntendedCreateAction |
