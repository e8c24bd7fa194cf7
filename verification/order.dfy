/** The order in which the search visits its candidates.  The loops nest as
    piece (in list order), loop step, starting point (row-major), filled
    cell (row-major), so two candidates are visited in the lexicographic
    order of those four keys.  This is the order the strict `<` of the
    running best resolves ties by. */
module LoopOrder {
  import opened Geometry
  import opened Search
  import Anchors

  /** The sequence is increasing under lt. */
  ghost predicate Increasing<T>(s: seq<T>, lt: (T, T) -> bool) {
    forall i, j :: 0 <= i < j < |s| ==> lt(s[i], s[j])
  }

  /** Two increasing runs, every element of the first below every element
      of the second, make one increasing run. */
  lemma ConcatIncreasing<T>(a: seq<T>, b: seq<T>, lt: (T, T) -> bool)
    requires Increasing(a, lt) && Increasing(b, lt)
    requires forall x, y :: x in a && y in b ==> lt(x, y)
    ensures Increasing(a + b, lt)
  {
    var s := a + b;
    forall i, j | 0 <= i < j < |s|
      ensures lt(s[i], s[j])
    {
      if j < |a| {
        assert s[i] == a[i] && s[j] == a[j];
      } else if i >= |a| {
        assert s[i] == b[i - |a|] && s[j] == b[j - |a|];
      } else {
        assert s[i] == a[i] && s[j] == b[j - |a|];
        assert a[i] in a && b[j - |a|] in b;
      }
    }
  }

  /** Position of a piece in the list: the index of its first occurrence,
      or the length of the list when it is absent. */
  function Pos(blocks: seq<char>, p: char): (k: nat)
    ensures k <= |blocks|
    ensures k < |blocks| <==> p in blocks
    ensures k < |blocks| ==> blocks[k] == p
    ensures forall i :: 0 <= i < k ==> blocks[i] != p
  {
    if blocks == [] then 0
    else if blocks[0] == p then 0
    else 1 + Pos(blocks[1..], p)
  }

  function Anchor(c: Candidate): (int, int) {
    (c.ay, c.ax)
  }

  function Cell(c: Candidate): (int, int) {
    (c.oy, c.ox)
  }

  /** Order of the innermost loop: filled cells row-major. */
  predicate CellOrder(c1: Candidate, c2: Candidate) {
    RowMajorBefore(Cell(c1), Cell(c2))
  }

  /** Order within one loop step: anchors row-major, then filled cells. */
  predicate AnchorOrder(c1: Candidate, c2: Candidate) {
    RowMajorBefore(Anchor(c1), Anchor(c2)) || (Anchor(c1) == Anchor(c2) && CellOrder(c1, c2))
  }

  /** Order within one piece: loop steps, then anchors and filled cells. */
  predicate StepOrder(c1: Candidate, c2: Candidate) {
    c1.step < c2.step || (c1.step == c2.step && AnchorOrder(c1, c2))
  }

  /** The search's order: piece position, then the order within a piece. */
  predicate VisitOrder(blocks: seq<char>, c1: Candidate, c2: Candidate) {
    Pos(blocks, c1.piece) < Pos(blocks, c2.piece) || (c1.piece == c2.piece && StepOrder(c1, c2))
  }

  /** The sequence is increasing in the search's order. */
  predicate InVisitOrder(blocks: seq<char>, s: seq<Candidate>) {
    forall i, j :: 0 <= i < j < |s| ==> VisitOrder(blocks, s[i], s[j])
  }

  predicate Distinct(blocks: seq<char>) {
    forall i, j :: 0 <= i < j < |blocks| ==> blocks[i] != blocks[j]
  }

  lemma {:induction false} AtAnchorOrdered(piece: char, step: nat, block: Pattern, a: (int, int), cells: seq<(int, int)>)
    requires forall i, j :: 0 <= i < j < |cells| ==> RowMajorBefore(cells[i], cells[j])
    ensures Increasing(AtAnchor(piece, step, block, a, cells), CellOrder)
    decreases |cells|
  {
    if cells != [] {
      var head := [Candidate(piece, step, block, a.0, a.1, cells[0].0, cells[0].1)];
      var rest := AtAnchor(piece, step, block, a, cells[1..]);
      AtAnchorOrdered(piece, step, block, a, cells[1..]);
      forall y | y in rest
        ensures CellOrder(head[0], y)
      {
        var k :| 0 <= k < |cells[1..]| && cells[1..][k] == Cell(y);
        assert cells[k + 1] == Cell(y);
      }
      ConcatIncreasing(head, rest, CellOrder);
    }
  }

  lemma {:induction false} AtAnchorsOrdered(piece: char, step: nat, block: Pattern, anchors: seq<(int, int)>, cells: seq<(int, int)>)
    requires forall i, j :: 0 <= i < j < |anchors| ==> RowMajorBefore(anchors[i], anchors[j])
    requires forall i, j :: 0 <= i < j < |cells| ==> RowMajorBefore(cells[i], cells[j])
    ensures Increasing(AtAnchors(piece, step, block, anchors, cells), AnchorOrder)
    decreases |anchors|
  {
    if anchors != [] {
      var first := AtAnchor(piece, step, block, anchors[0], cells);
      var rest := AtAnchors(piece, step, block, anchors[1..], cells);
      AtAnchorOrdered(piece, step, block, anchors[0], cells);
      AtAnchorsOrdered(piece, step, block, anchors[1..], cells);
      forall x, y | x in first && y in rest
        ensures AnchorOrder(x, y)
      {
        var k :| 0 <= k < |anchors[1..]| && anchors[1..][k] == Anchor(y);
        assert anchors[k + 1] == Anchor(y);
      }
      assert Increasing(first, AnchorOrder) by {
        assert forall x :: x in first ==> Anchor(x) == anchors[0];
      }
      ConcatIncreasing(first, rest, AnchorOrder);
    }
  }

  lemma {:induction false} StepsFromOrdered(piece: char, base: Pattern, s: nat, anchors: seq<(int, int)>)
    requires IsPattern(base)
    requires forall i, j :: 0 <= i < j < |anchors| ==> RowMajorBefore(anchors[i], anchors[j])
    ensures Increasing(StepsFrom(piece, base, s, anchors), StepOrder)
    decreases 8 - s
  {
    if s < 8 {
      var block := Orientation.Tried(base, s + 1);
      var first := AtAnchors(piece, s, block, anchors, CellsOf(block));
      var rest := StepsFrom(piece, base, s + 1, anchors);
      AtAnchorsOrdered(piece, s, block, anchors, CellsOf(block));
      StepsFromOrdered(piece, base, s + 1, anchors);
      assert Increasing(first, StepOrder) by {
        assert forall x :: x in first ==> x.step == s;
      }
      ConcatIncreasing(first, rest, StepOrder);
    }
  }

  /** Every candidate of one piece's steps names that piece. */
  lemma StepsFromPiece(piece: char, base: Pattern, anchors: seq<(int, int)>)
    requires IsPattern(base)
    ensures forall x :: x in StepsFrom(piece, base, 0, anchors) ==> x.piece == piece
  {
  }

  /** Every candidate of the piece loop names a held piece. */
  lemma PieceCandidatesPiece(catalog: char -> Pattern, blocks: seq<char>, anchors: seq<(int, int)>)
    requires CatalogCovers(catalog, blocks)
    ensures forall y :: y in PieceCandidates(catalog, blocks, anchors) ==> y.piece in blocks
  {
  }

  /** In a list without repeats, a piece of the tail sits one further on. */
  lemma TailPos(blocks: seq<char>, p: char)
    requires Distinct(blocks) && blocks != [] && p in blocks[1..]
    ensures p != blocks[0] && Pos(blocks, p) == 1 + Pos(blocks[1..], p)
  {
    var k :| 0 <= k < |blocks[1..]| && blocks[1..][k] == p;
    assert blocks[k + 1] == p;
  }

  /** The order on the tail's candidates carries over to the whole list. */
  lemma TailOrder(blocks: seq<char>, rest: seq<Candidate>)
    requires Distinct(blocks) && blocks != []
    requires forall y :: y in rest ==> y.piece in blocks[1..]
    requires InVisitOrder(blocks[1..], rest)
    ensures InVisitOrder(blocks, rest)
  {
    forall i, j | 0 <= i < j < |rest|
      ensures VisitOrder(blocks, rest[i], rest[j])
    {
      assert rest[i] in rest && rest[j] in rest;
      assert VisitOrder(blocks[1..], rest[i], rest[j]);
      TailPos(blocks, rest[i].piece);
      TailPos(blocks, rest[j].piece);
    }
  }

  /** The first piece's candidates come before the tail's. */
  lemma HeadBeforeTail(blocks: seq<char>, first: seq<Candidate>, rest: seq<Candidate>)
    requires Distinct(blocks) && blocks != []
    requires forall x :: x in first ==> x.piece == blocks[0]
    requires forall y :: y in rest ==> y.piece in blocks[1..]
    requires Increasing(first, StepOrder)
    requires InVisitOrder(blocks, rest)
    ensures InVisitOrder(blocks, first + rest)
  {
    var s := first + rest;
    forall i, j | 0 <= i < j < |s|
      ensures VisitOrder(blocks, s[i], s[j])
    {
      if j < |first| {
        assert s[i] == first[i] && s[j] == first[j];
        assert first[i] in first && first[j] in first;
      } else if i >= |first| {
        assert s[i] == rest[i - |first|] && s[j] == rest[j - |first|];
      } else {
        assert s[i] == first[i] && s[j] == rest[j - |first|];
        assert first[i] in first && rest[j - |first|] in rest;
        TailPos(blocks, s[j].piece);
      }
    }
  }

  /** One turn of the piece loop: the first piece's steps, then the rest. */
  lemma PieceSplit(catalog: char -> Pattern, blocks: seq<char>, anchors: seq<(int, int)>)
    requires CatalogCovers(catalog, blocks) && Distinct(blocks) && blocks != []
    ensures CatalogCovers(catalog, blocks[1..]) && Distinct(blocks[1..])
    ensures PieceCandidates(catalog, blocks, anchors) ==
            StepsFrom(blocks[0], catalog(blocks[0]), 0, anchors) + PieceCandidates(catalog, blocks[1..], anchors)
  {
    assert forall p :: p in blocks[1..] ==> p in blocks;
  }

  lemma {:induction false} PieceCandidatesOrdered(catalog: char -> Pattern, blocks: seq<char>, anchors: seq<(int, int)>)
    requires CatalogCovers(catalog, blocks) && Distinct(blocks)
    requires forall i, j :: 0 <= i < j < |anchors| ==> RowMajorBefore(anchors[i], anchors[j])
    ensures InVisitOrder(blocks, PieceCandidates(catalog, blocks, anchors))
    decreases |blocks|
  {
    if blocks != [] {
      var tail := blocks[1..];
      var first := StepsFrom(blocks[0], catalog(blocks[0]), 0, anchors);
      PieceSplit(catalog, blocks, anchors);
      var rest := PieceCandidates(catalog, tail, anchors);
      StepsFromOrdered(blocks[0], catalog(blocks[0]), 0, anchors);
      StepsFromPiece(blocks[0], catalog(blocks[0]), anchors);
      PieceCandidatesOrdered(catalog, tail, anchors);
      PieceCandidatesPiece(catalog, tail, anchors);
      TailOrder(blocks, rest);
      HeadBeforeTail(blocks, first, rest);
    }
  }

  /** With distinct pieces (as a fresh client holds), the search visits its
      candidates in the loops' lexicographic order: earlier pieces first,
      then lower loop steps, then anchors row-major, then filled cells
      row-major. */
  lemma SearchOrderIsLoopOrder(catalog: char -> Pattern, blocks: seq<char>, sp: seq<seq<int>>)
    requires CatalogCovers(catalog, blocks) && Anchors.IsCountGrid(sp) && Distinct(blocks)
    ensures var cands := SearchOrder(catalog, blocks, sp);
            forall i, j :: 0 <= i < j < |cands| ==> VisitOrder(blocks, cands[i], cands[j])
  {
    PieceCandidatesOrdered(catalog, blocks, AnchorsOf(sp));
  }
}
