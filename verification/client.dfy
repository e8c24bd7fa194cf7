/** The client's per-game state (player number, pieces still held, turn
    counter, own mark) and the opening turn of create_action. */
module Client {
  import opened Board
  import opened Geometry
  import opened Orientation
  import opened Codec
  import Anchors
  import Search
  import LoopOrder

  /** The fields of a PlayerClient the decision engine reads and writes. */
  datatype ClientState = ClientState(player: int, blocks: seq<char>, turn: int, mark: Option<char>)

  /** The state a fresh client starts in: every piece from 'U' down to 'A'
      (chr(85) .. chr(65)), turn 0, no mark yet. */
  function Init(player: int): (s: ClientState)
    ensures s.player == player && s.turn == 0 && s.mark == None
    ensures |s.blocks| == 21 && s.blocks[0] == 'U' && s.blocks[20] == 'A'
    ensures forall i, j :: 0 <= i < j < |s.blocks| ==> s.blocks[i] > s.blocks[j]
    ensures forall ch :: ch in s.blocks <==> 'A' <= ch <= 'U'
  {
    var blocks := seq(21, i requires 0 <= i < 21 => (85 - i) as char);
    forall ch | 'A' <= ch <= 'U'
      ensures ch in blocks
    {
      assert blocks[85 - ch as int] == ch;
    }
    ClientState(player, blocks, 0, None)
  }

  /** Why create_action raises instead of returning a token. */
  datatype Fault =
    | PopFromEmpty   // blocks.pop(0) on an empty list
    | UnpackMismatch // four names bound to the five-tuple of the search

  datatype Outcome = Sent(token: string) | Crash(fault: Fault)

  /** The marks of the two roles. */
  function MarkOf(player: int): char {
    if player == 1 then 'o' else 'x'
  }

  /** The hard-coded opening token of each role. */
  function OpeningToken(player: int): string {
    if player == 1 then "U045" else "U09A"
  }

  /** create_action.  On turn 0 the client takes its mark, counts the turn,
      drops the first piece of its list and sends the role's fixed opening
      token, without looking at the board.  On any later turn it runs the
      starting-point scan and the search and then binds four names to the
      five values the search returns, which raises; so no later turn ever
      sends a token.  The mark and turn are updated before `pop` can fail,
      and the returned state reflects that. */
  function CreateAction(s: ClientState): (r: (ClientState, Outcome))
    ensures r.0.player == s.player
    ensures s.turn != 0 ==> r == (s, Crash(UnpackMismatch))
    ensures s.turn == 0 ==> r.0.turn == 1 && r.0.mark == Some(MarkOf(s.player))
    ensures s.turn == 0 && s.blocks == [] ==> r.1 == Crash(PopFromEmpty)
    ensures s.turn == 0 && s.blocks != [] ==>
              r.0.blocks == s.blocks[1..] && r.1 == Sent(OpeningToken(s.player))
  {
    if s.turn == 0 then
      var s' := s.(mark := Some(MarkOf(s.player)), turn := s.turn + 1);
      if s'.blocks == [] then (s', Crash(PopFromEmpty))
      else (s'.(blocks := s'.blocks[1..]), Sent(OpeningToken(s.player)))
    else
      (s, Crash(UnpackMismatch))
  }

  /** The opening turn of a fresh client: the token names the piece that
      leaves the list ('U'), with orientation code 0, at column 3 row 4 for
      player 1 and column 8 row 9 otherwise (1-based on the wire); 20 pieces
      remain, none of them 'U', and the two roles take different marks. */
  lemma OpeningTurn(player: int)
    ensures var s := Init(player);
            var (s', out) := CreateAction(s);
            && out.Sent?
            && s'.turn == 1
            && s.blocks == [out.token[0]] + s'.blocks
            && |s'.blocks| == 20 && out.token[0] !in s'.blocks
            && DecodeMove(out.token) == Some(if player == 1 then MoveFields('U', 0, 3, 4) else MoveFields('U', 0, 8, 9))
            && s'.mark == Some(if player == 1 then 'o' else 'x')
  {
    var s := Init(player);
    var s' := CreateAction(s).0;
    assert s.blocks == [s.blocks[0]] + s'.blocks;
  }

  /** A fresh client holds no piece twice, and neither does it after the
      opening, so the search's loop order applies to its lists. */
  lemma HeldPiecesDistinct(player: int)
    ensures LoopOrder.Distinct(Init(player).blocks)
    ensures LoopOrder.Distinct(CreateAction(Init(player)).0.blocks)
  {
    var s := Init(player);
    var s' := CreateAction(s).0;
    assert forall i :: 0 <= i < |s'.blocks| ==> s'.blocks[i] == s.blocks[i + 1];
  }

  /** Once the opening has been played the client never sends another
      token: every later call raises. */
  lemma NoMoveAfterOpening(player: int)
    ensures var s1 := CreateAction(Init(player)).0;
            CreateAction(s1).1 == Crash(UnpackMismatch)
  {
  }

  /** The orientation code of loop step s is gen_action of its labels; it
      is s with its lowest bit toggled, because the loop tries flip=True
      first while gen_action numbers flip=True second. */
  lemma StepCode(step: nat)
    requires step < 8
    ensures GenAction(StepRotation(step), StepFlip(step)) ==
            Some(if step % 2 == 0 then step + 1 else step - 1)
  {
  }

  /** What the encoding lines of create_action would produce for a search
      result, had the unpacking matched: a four-character token that reads
      back as the piece, the gen_action code and the corner. */
  lemma SearchResultEncodes(g: Grid, sp: seq<seq<int>>, blocks: seq<char>, catalog: char -> Pattern, player: int)
    requires IsGrid(g) && Anchors.IsCountGrid(sp) && Search.CatalogCovers(catalog, blocks)
    ensures var r := Search.FindPlaceablePosition(g, sp, blocks, catalog, player);
            r.Some? ==>
              var p := r.value;
              var action := GenAction(p.rotation, p.flip);
              && action.Some?
              && |EncodeMove(p.piece, action.value, p.nx, p.ny)| == 4
              && DecodeMove(EncodeMove(p.piece, action.value, p.nx, p.ny)) ==
                 Some(MoveFields(p.piece, action.value, p.nx, p.ny))
  {
    var r := Search.FindPlaceablePosition(g, sp, blocks, catalog, player);
    if r.Some? {
      var p := r.value;
      EncodeDecode(p.piece, GenAction(p.rotation, p.flip).value, p.nx, p.ny);
    }
  }

  /** list.remove: drops the first occurrence of p, one copy of it, and
      keeps the order of everything else. */
  function RemoveFirst(blocks: seq<char>, p: char): (r: seq<char>)
    requires p in blocks
    ensures |r| == |blocks| - 1
    ensures forall i :: 0 <= i < LoopOrder.Pos(blocks, p) ==> r[i] == blocks[i]
    ensures forall i :: LoopOrder.Pos(blocks, p) <= i < |r| ==> r[i] == blocks[i + 1]
  {
    if blocks[0] == p then blocks[1..]
    else
      assert p in blocks[1..] by {
        var i :| 0 <= i < |blocks| && blocks[i] == p;
        assert blocks[1..][i - 1] == p;
      }
      [blocks[0]] + RemoveFirst(blocks[1..], p)
  }

  /** Exactly one copy of p leaves the list: the first one. */
  lemma RemoveFirstCount(blocks: seq<char>, p: char)
    requires p in blocks
    ensures var k := LoopOrder.Pos(blocks, p);
            RemoveFirst(blocks, p) == blocks[..k] + blocks[k + 1..]
    ensures multiset(RemoveFirst(blocks, p)) == multiset(blocks) - multiset{p}
  {
    var k := LoopOrder.Pos(blocks, p);
    RemoveFirstSlices(blocks, p, k, RemoveFirst(blocks, p));
    MultisetSplit(blocks, k);
  }

  lemma RemoveFirstSlices(blocks: seq<char>, p: char, k: nat, r: seq<char>)
    requires k < |blocks| && |r| == |blocks| - 1
    requires forall i :: 0 <= i < k ==> r[i] == blocks[i]
    requires forall i :: k <= i < |r| ==> r[i] == blocks[i + 1]
    ensures r == blocks[..k] + blocks[k + 1..]
  {
    var a, b := blocks[..k], blocks[k + 1..];
    forall i | 0 <= i < |r|
      ensures r[i] == (a + b)[i]
    {
      if i < k {
        assert (a + b)[i] == a[i];
      } else {
        assert (a + b)[i] == b[i - k];
      }
    }
  }

  lemma MultisetSplit(s: seq<char>, k: nat)
    requires k < |s|
    ensures multiset(s[..k] + s[k + 1..]) == multiset(s) - multiset{s[k]}
  {
    assert s == s[..k] + [s[k]] + s[k + 1..];
  }

  /** create_action with the search's five values unpacked as
      (block_type, x, y, rotation, flip) and the orientation code taken from
      gen_action(rotation, flip).  The opening is unchanged; on a later turn
      a found placement is sent, its piece removed from the list and the
      turn counted, and when nothing fits the pass token is sent with the
      state untouched.  It never raises after the opening. */
  function IntendedCreateAction(s: ClientState, g: Grid, catalog: char -> Pattern): (r: (ClientState, Outcome))
    requires IsGrid(g) && Search.CatalogCovers(catalog, s.blocks)
    ensures s.turn == 0 ==> r == CreateAction(s)
    ensures s.turn != 0 ==> r.1.Sent? && r.0.player == s.player && r.0.mark == s.mark
  {
    if s.turn == 0 then CreateAction(s)
    else
      match Search.FindPlaceablePosition(g, Anchors.StartingPoints(g), s.blocks, catalog, s.player)
      case None => (s, Sent(Pass))
      case Some(p) =>
        var action := GenAction(p.rotation, p.flip).value;
        (s.(turn := s.turn + 1, blocks := RemoveFirst(s.blocks, p.piece)),
         Sent(EncodeMove(p.piece, action, p.nx, p.ny)))
  }

  /** After the opening the corrected client passes exactly when no
      candidate of the search is legal; otherwise its token reads back as a
      held piece, an orientation code below 8 and a corner whose placement,
      with the code's (rotation, flip) labels, the search accepts, and that
      one copy of the piece leaves the list as the turn is counted. */
  lemma IntendedMoveIsAccepted(s: ClientState, g: Grid, catalog: char -> Pattern)
    requires IsGrid(g) && Search.CatalogCovers(catalog, s.blocks) && s.turn != 0
    ensures var (s', out) := IntendedCreateAction(s, g, catalog);
            var sp := Anchors.StartingPoints(g);
            && out.Sent?
            && (out.token == Pass <==>
                forall c :: Search.IsCandidate(catalog, s.blocks, sp, c) ==> !Search.Legal(g, c))
            && (out.token == Pass ==> s' == s)
            && (out.token != Pass ==>
                && DecodeMove(out.token).Some?
                && var m := DecodeMove(out.token).value;
                && m.piece in s.blocks
                && m.action < 8
                && Search.Accepted(g, sp, s.blocks, catalog,
                     Search.Placement(m.piece, m.x, m.y, ActionLabels(m.action).0, ActionLabels(m.action).1))
                && s'.turn == s.turn + 1
                && multiset(s'.blocks) == multiset(s.blocks) - multiset{m.piece})
  {
    var sp := Anchors.StartingPoints(g);
    var r := Search.FindPlaceablePosition(g, sp, s.blocks, catalog, s.player);
    Search.SearchNoneIffStuck(g, sp, s.blocks, catalog, s.player);
    PassIsNotAPlacement();
    if r.Some? {
      var p := r.value;
      var action := GenAction(p.rotation, p.flip).value;
      Search.SearchSound(g, sp, s.blocks, catalog, s.player);
      EncodeDecode(p.piece, action, p.nx, p.ny);
      RemoveFirstCount(s.blocks, p.piece);
      GenActionInverse(p.rotation, p.flip, action);
      assert Search.Placement(p.piece, p.nx, p.ny, ActionLabels(action).0, ActionLabels(action).1) == p;
    }
  }
}
