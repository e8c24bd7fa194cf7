/** The orientations the search tries for one piece.  Inside the rotation /
    flip loops the block variable is reassigned, so every step transforms the
    block left by the previous step, not the catalog pattern: step s (0..7)
    carries the labels rotation = s / 2 and flip = (s is even), first mirrors
    the current block when flip is set and then turns it by `rotation`
    quarter turns counter-clockwise. */
module Orientation {
  import opened Geometry

  /** The rotation label of loop step s. */
  function StepRotation(s: nat): nat {
    s / 2
  }

  /** The flip label of loop step s: True is tried before False. */
  function StepFlip(s: nat): bool {
    s % 2 == 0
  }

  /** The loop step that carries the labels (rotation, flip). */
  function StepOf(rotation: nat, flip: bool): (s: nat)
    ensures StepRotation(s) == rotation && StepFlip(s) == flip
    ensures rotation < 4 ==> s < 8
    ensures forall t: nat :: StepRotation(t) == rotation && StepFlip(t) == flip ==> t == s
  {
    2 * rotation + (if flip then 0 else 1)
  }

  /** The block held after the first n loop steps for a piece whose catalog
      pattern is base; step s works on Tried(base, s + 1). */
  function Tried(base: Pattern, n: nat): (b: Pattern)
    requires IsPattern(base)
    ensures IsPattern(b)
    ensures (Rows(b) == Rows(base) && Cols(b) == Cols(base)) ||
            (Rows(b) == Cols(base) && Cols(b) == Rows(base))
  {
    if n == 0 then base
    else
      var prev := Tried(base, n - 1);
      Rot(if StepFlip(n - 1) then FlipLR(prev) else prev, StepRotation(n - 1))
  }

  /** What the cumulative reassignment amounts to.  Writing F for the mirror
      and R for a quarter turn, the blocks of steps 0..7 are
      F, F, R, R², F, R²F, R and the catalog pattern itself.  Only five of
      the eight orientations of a piece are ever tried: R³, RF and R³F never
      are, and after the eighth step the block is the catalog pattern again. */
  lemma {:induction false} TriedOrientations(base: Pattern)
    requires IsPattern(base)
    ensures Tried(base, 1) == FlipLR(base)
    ensures Tried(base, 2) == FlipLR(base)
    ensures Tried(base, 3) == Rot(base, 1)
    ensures Tried(base, 4) == Rot(base, 2)
    ensures Tried(base, 5) == FlipLR(base)
    ensures Tried(base, 6) == Rot(FlipLR(base), 2)
    ensures Tried(base, 7) == Rot(base, 1)
    ensures Tried(base, 8) == base
  {
    TriedUpToFour(base);
    TriedFrom5(base);
  }

  /** Steps 0..3: mirror, keep, quarter turn, quarter turn. */
  lemma {:induction false} TriedUpToFour(base: Pattern)
    requires IsPattern(base)
    ensures Tried(base, 1) == FlipLR(base)
    ensures Tried(base, 2) == FlipLR(base)
    ensures Tried(base, 3) == Rot(base, 1)
    ensures Tried(base, 4) == Rot(base, 2)
  {
    var f := FlipLR(base);
    assert Tried(base, 0) == base;
    assert Tried(base, 1) == Rot(f, 0) == f;
    assert Tried(base, 2) == Rot(f, 0) == f;
    assert Tried(base, 3) == Rot(FlipLR(f), 1) == Rot(base, 1) by {
      FlipTwice(base);
    }
    assert Tried(base, 4) == Rot(Rot(base, 1), 1) == Rot(base, 2) by {
      RotAdd(base, 1, 1);
    }
  }

  /** Step 4 mirrors the half turn and turns it by a half turn again. */
  lemma {:induction false} TriedFrom5(base: Pattern)
    requires IsPattern(base)
    requires Tried(base, 4) == Rot(base, 2)
    ensures Tried(base, 5) == FlipLR(base)
    ensures Tried(base, 6) == Rot(FlipLR(base), 2)
    ensures Tried(base, 7) == Rot(base, 1)
    ensures Tried(base, 8) == base
  {
    var f := FlipLR(base);
    assert Tried(base, 5) == Rot(FlipLR(Rot(base, 2)), 2) == f by {
      FlipHalfTurn(base);
      RotAdd(f, 2, 2);
      FullTurn(f);
    }
    TriedFrom7(base);
  }

  /** Steps 5..7: keep, mirror and turn three times, keep. */
  lemma {:induction false} TriedFrom7(base: Pattern)
    requires IsPattern(base)
    requires Tried(base, 5) == FlipLR(base)
    ensures Tried(base, 6) == Rot(FlipLR(base), 2)
    ensures Tried(base, 7) == Rot(base, 1)
    ensures Tried(base, 8) == base
  {
    var f := FlipLR(base);
    assert Tried(base, 6) == Rot(f, 2);
    assert Tried(base, 7) == Rot(FlipLR(Rot(f, 2)), 3) == Rot(base, 1) by {
      FlipHalfTurn(f);
      FlipTwice(base);
      RotAdd(base, 2, 3);
      RotAdd(base, 4, 1);
      FullTurn(base);
    }
    assert Tried(base, 8) == Rot(Rot(base, 1), 3) == base by {
      RotAdd(base, 1, 3);
      FullTurn(base);
    }
  }

  /** The L-shaped tetromino, three rows by two columns. */
  function LTetromino(): (p: Pattern)
    ensures IsPattern(p)
  {
    [[true, false], [true, false], [true, true]]
  }

  /** A piece exists whose clockwise quarter turn (R³) is never among the
      blocks the search tries for it. */
  lemma ClockwiseQuarterTurnMissed()
    ensures forall n :: 1 <= n <= 8 ==> Tried(LTetromino(), n) != Rot(LTetromino(), 3)
  {
    var p := LTetromino();
    TriedOrientations(p);
    var r1 := Rot(p, 1);
    var r3 := Rot(p, 3);
    assert Rows(r3) == 2 && Rows(p) == 3;
    assert r1[0][0] == p[0][1] == false by {
      assert Rot(p, 1) == Rot90(p);
    }
    assert r3 == Rot(Rot(p, 2), 1) by {
      RotAdd(p, 2, 1);
    }
    assert r3[0][0] == Rot(p, 2)[0][1] == p[2][0] == true by {
      assert Rot(Rot(p, 2), 1) == Rot90(Rot(p, 2));
      HalfTurnAt(p, 0, 1);
    }
    forall n | 1 <= n <= 8
      ensures Tried(p, n) != r3
    {
      if n == 3 || n == 7 {
        assert Tried(p, n)[0][0] != r3[0][0];
      } else {
        assert Rows(Tried(p, n)) == 3;
      }
    }
  }
}
