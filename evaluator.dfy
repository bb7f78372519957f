/** evaluatePosition: how many more discs a player has than the other side. */
module Evaluator {
  import opened BoardModel

  /** What one cell adds to the score: +1 for the player's disc, -1 for any other
      non-empty cell, 0 for an empty one. */
  function CellScore(v: int, player: int): (s: int)
    ensures -1 <= s <= 1
    ensures s == 1 <==> v == player
    ensures s == 0 <==> v != player && v == 0
  {
    if v == player then 1 else if v != 0 then -1 else 0
  }

  /** The score of a row: the cell scores added from the left. */
  function RowScore(row: seq<int>, player: int): int
  {
    if |row| == 0 then 0 else RowScore(row[..|row| - 1], player) + CellScore(row[|row| - 1], player)
  }

  /** The score of a list of rows: the row scores added from the top. */
  function RowsScore(rows: seq<seq<int>>, player: int): int
  {
    if |rows| == 0 then 0 else RowsScore(rows[..|rows| - 1], player) + RowScore(rows[|rows| - 1], player)
  }

  /** The value evaluatePosition returns for a board. */
  function Evaluation(b: Board, player: int): int
  {
    RowsScore(b, player)
  }

  /** The number of cells of a row holding v. */
  function RowCount(row: seq<int>, v: int): nat
  {
    if |row| == 0 then 0 else RowCount(row[..|row| - 1], v) + (if row[|row| - 1] == v then 1 else 0)
  }

  /** The number of cells of a list of rows holding v. */
  function Count(rows: seq<seq<int>>, v: int): nat
  {
    if |rows| == 0 then 0 else Count(rows[..|rows| - 1], v) + RowCount(rows[|rows| - 1], v)
  }

  /** Every cell holds 0 (empty), 1 or 2. */
  predicate Discs(rows: seq<seq<int>>)
  {
    forall i, j :: 0 <= i < |rows| && 0 <= j < |rows[i]| ==> 0 <= rows[i][j] <= 2
  }

  /** A row's score is its discs of the player minus its discs of the opponent. */
  lemma {:induction false} RowScoreIsDifference(row: seq<int>, player: int)
    requires player == 1 || player == 2
    requires forall j :: 0 <= j < |row| ==> 0 <= row[j] <= 2
    ensures RowScore(row, player) == RowCount(row, player) - RowCount(row, GetOpponent(player))
  {
    if |row| > 0 {
      RowScoreIsDifference(row[..|row| - 1], player);
    }
  }

  /** The evaluation counts discs: on a board of empty cells and discs of the two
      players it is the player's discs minus the opponent's. */
  lemma {:induction false} EvaluationIsDiscDifference(rows: seq<seq<int>>, player: int)
    requires player == 1 || player == 2
    requires Discs(rows)
    ensures RowsScore(rows, player) == Count(rows, player) - Count(rows, GetOpponent(player))
  {
    if |rows| > 0 {
      var front := rows[..|rows| - 1];
      assert Discs(front) by {
        forall i, j | 0 <= i < |front| && 0 <= j < |front[i]| ensures 0 <= front[i][j] <= 2 {
          assert front[i] == rows[i];
        }
      }
      EvaluationIsDiscDifference(front, player);
      RowScoreIsDifference(rows[|rows| - 1], player);
    }
  }

  /** Swapping the side evaluated negates the score. */
  lemma EvaluationAntisymmetric(b: Board, player: int)
    requires player == 1 || player == 2
    requires Discs(b)
    ensures Evaluation(b, GetOpponent(player)) == -Evaluation(b, player)
  {
    EvaluationIsDiscDifference(b, player);
    EvaluationIsDiscDifference(b, GetOpponent(player));
  }

  /** A row scores between minus and plus its length. */
  lemma {:induction false} RowScoreBounds(row: seq<int>, player: int)
    ensures -|row| <= RowScore(row, player) <= |row|
  {
    if |row| > 0 {
      RowScoreBounds(row[..|row| - 1], player);
    }
  }

  /** Rows of width w score between -w and w per row. */
  lemma {:induction false} RowsScoreBounds(rows: seq<seq<int>>, player: int, w: int)
    requires 0 <= w
    requires forall i :: 0 <= i < |rows| ==> |rows[i]| == w
    ensures -w * |rows| <= RowsScore(rows, player) <= w * |rows|
  {
    if |rows| > 0 {
      RowsScoreBounds(rows[..|rows| - 1], player, w);
      RowScoreBounds(rows[|rows| - 1], player);
    }
  }

  /** A board evaluates to between -64 and 64. */
  lemma EvaluationBounds(b: Board, player: int)
    requires WellFormed(b)
    ensures -Size * Size <= Evaluation(b, player) <= Size * Size
  {
    RowsScoreBounds(b, player, Size);
  }

  /** evaluatePosition: a running score over the nested row and column loops. */
  method EvaluatePosition(b: Board, player: int) returns (score: int)
    requires WellFormed(b)
    ensures score == Evaluation(b, player)
  {
    score := 0;
    for i := 0 to Size
      invariant score == RowsScore(b[..i], player)
    {
      for j := 0 to Size
        invariant score == RowsScore(b[..i], player) + RowScore(b[i][..j], player)
      {
        assert b[i][..j + 1][..j] == b[i][..j];
        if b[i][j] == player {
          score := score + 1;
        } else if b[i][j] != 0 {
          score := score - 1;
        }
      }
      assert b[i][..Size] == b[i];
      assert b[..i + 1][..i] == b[..i];
    }
    assert b[..Size] == b;
  }
}
