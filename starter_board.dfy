/** The opening position of test.js and the moves getPossibleMoves finds on it for
    player 1: each cell is decided by the generic sandwich lemmas of BoardModel, and
    the list itself by MoveGenerator.MovesAre. */
module StarterBoard {
  import opened BoardModel
  import opened MoveGenerator

  /** The opening position: two discs of each player crossed in the centre. */
  const Starter: Board :=
    [[0, 0, 0, 0, 0, 0, 0, 0],
     [0, 0, 0, 0, 0, 0, 0, 0],
     [0, 0, 0, 0, 0, 0, 0, 0],
     [0, 0, 0, 2, 1, 0, 0, 0],
     [0, 0, 0, 1, 2, 0, 0, 0],
     [0, 0, 0, 0, 0, 0, 0, 0],
     [0, 0, 0, 0, 0, 0, 0, 0],
     [0, 0, 0, 0, 0, 0, 0, 0]]

  /** The four moves of player 1 on the opening position, in row-major order. */
  const OpeningMoves: seq<Pos> := [Pos(2, 3), Pos(3, 2), Pos(4, 5), Pos(5, 4)]

  /** The opening position is an 8 by 8 board. */
  lemma StarterWellFormed()
    ensures WellFormed(Starter)
  {
  }

  /** Cell p is more than one step from cell c in some coordinate. */
  predicate Far(p: Pos, c: Pos)
  {
    p.r < c.r - 1 || p.r > c.r + 1 || p.c < c.c - 1 || p.c > c.c + 1
  }

  /** A cell away from both of player 2's discs is not a move for player 1. */
  lemma Quiet(p: Pos)
    requires InBounds(p) && Far(p, Pos(3, 3)) && Far(p, Pos(4, 4))
    ensures !IsLegal(Starter, 1, p)
  {
    StarterWellFormed();
    NoOpponentAdjacent(Starter, 1, p);
  }

  /** Each of the four opening moves flips the player 2 disc next to it. */
  lemma ClosedFour(p: Pos)
    requires p in OpeningMoves
    ensures IsLegal(Starter, 1, p)
  {
    StarterWellFormed();
    if p == Pos(2, 3) {
      ClosedByOne(Starter, 1, p, Dir(1, 0));
    } else if p == Pos(3, 2) {
      ClosedByOne(Starter, 1, p, Dir(0, 1));
    } else if p == Pos(4, 5) {
      ClosedByOne(Starter, 1, p, Dir(0, -1));
    } else {
      ClosedByOne(Starter, 1, p, Dir(-1, 0));
    }
  }

  /** The empty cells next to the player 2 disc at (3, 3) that are not moves: the run from them ends on an empty cell. */
  lemma NearThreeThree(p: Pos)
    requires p in [Pos(2, 2), Pos(2, 4), Pos(4, 2)]
    ensures !IsLegal(Starter, 1, p)
  {
    StarterWellFormed();
    if p == Pos(2, 2) {
      LoneRunNotLegal(Starter, 1, p, Dir(1, 1), 2);
    } else if p == Pos(2, 4) {
      LoneRunNotLegal(Starter, 1, p, Dir(1, -1), 1);
    } else {
      LoneRunNotLegal(Starter, 1, p, Dir(-1, 1), 1);
    }
  }

  /** The empty cells next to the player 2 disc at (4, 4) that are not moves, for the same reason. */
  lemma NearFourFour(p: Pos)
    requires p in [Pos(5, 5), Pos(3, 5), Pos(5, 3)]
    ensures !IsLegal(Starter, 1, p)
  {
    StarterWellFormed();
    if p == Pos(5, 5) {
      LoneRunNotLegal(Starter, 1, p, Dir(-1, -1), 2);
    } else if p == Pos(3, 5) {
      LoneRunNotLegal(Starter, 1, p, Dir(1, -1), 1);
    } else {
      LoneRunNotLegal(Starter, 1, p, Dir(-1, 1), 1);
    }
  }

  /** The four centre cells hold discs, so none is a move. */
  lemma Occupied(p: Pos)
    requires 3 <= p.r <= 4 && 3 <= p.c <= 4
    ensures !IsLegal(Starter, 1, p)
  {
    StarterWellFormed();
    assert Starter[p.r][p.c] != 0;
  }

  /** A cell of the opening position is a move for player 1 exactly when it is one of the four. */
  lemma StarterLegal(p: Pos)
    requires InBounds(p)
    ensures IsLegal(Starter, 1, p) <==> p in OpeningMoves
  {
    if p.r < 2 || p.r > 5 || p.c < 2 || p.c > 5 || p == Pos(2, 5) || p == Pos(5, 2) {
      Quiet(p);
    } else if 3 <= p.r <= 4 && 3 <= p.c <= 4 {
      Occupied(p);
    } else if p in OpeningMoves {
      ClosedFour(p);
    } else if p in [Pos(2, 2), Pos(2, 4), Pos(4, 2)] {
      NearThreeThree(p);
    } else {
      NearFourFour(p);
    }
  }

  /** getPossibleMoves(starterBoard, 1) is [2,3], [3,2], [4,5], [5,4] in this order; its first element is [2,3]. */
  lemma StarterMoves()
    ensures WellFormed(Starter)
    ensures LegalMoves(Starter, 1) == OpeningMoves
    ensures LegalMoves(Starter, 1)[0] == Pos(2, 3)
  {
    StarterWellFormed();
    forall p | InBounds(p)
      ensures IsLegal(Starter, 1, p) <==> p in OpeningMoves
    {
      StarterLegal(p);
    }
    MovesAre(Starter, 1, OpeningMoves);
  }
}
