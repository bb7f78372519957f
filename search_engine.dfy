/** minimax: depth-limited game-tree search with alpha-beta pruning, specified by
    the plain minimax value of the same tree. */
module SearchEngine {
  import opened ExtInt
  import opened BoardModel
  import opened MoveGenerator
  import opened Evaluator

  /** The three board operations the search consults: the move generator, the move
      simulator and the evaluator. The search is specified over these, and Othello
      below supplies the ones this engine uses. */
  datatype Rules = Rules(moves: (Board, int) -> seq<Pos>, play: (Board, Pos, int) -> Board, eval: (Board, int) -> int)

  /** getPossibleMoves on a board of the right shape; no moves otherwise. */
  function Moves(b: Board, player: int): seq<Pos>
  {
    if WellFormed(b) then LegalMoves(b, player) else []
  }

  /** simulateMove for a move on the board; the board unchanged otherwise. */
  function Play(b: Board, mv: Pos, player: int): (r: Board)
    ensures WellFormed(b) ==> WellFormed(r)
  {
    if WellFormed(b) && InBounds(mv) then Simulated(b, mv, player) else b
  }

  /** The rules of this engine. */
  const Othello := Rules(Moves, Play, Evaluation)

  /** g agrees with the engine's own operations wherever those are defined. */
  ghost predicate Implements(g: Rules)
  {
    && (forall b, p {:trigger LegalMoves(b, p)} :: WellFormed(b) ==> g.moves(b, p) == LegalMoves(b, p))
    && (forall b, mv, p {:trigger Simulated(b, mv, p)} :: WellFormed(b) && InBounds(mv) ==> g.play(b, mv, p) == Simulated(b, mv, p))
    && (forall b, p {:trigger Evaluation(b, p)} :: g.eval(b, p) == Evaluation(b, p))
  }

  /** Playing a move keeps the board 8 by 8. */
  ghost predicate KeepsShape(g: Rules)
  {
    forall b, mv, p :: WellFormed(b) ==> WellFormed(g.play(b, mv, p))
  }

  /** Evaluations of 8 by 8 boards lie between -64 and 64. */
  ghost predicate EvalBounded(g: Rules)
  {
    forall b, p :: WellFormed(b) ==> -Size * Size <= g.eval(b, p) <= Size * Size
  }

  /** The engine's rules are its own operations, keep boards 8 by 8 and evaluate within [-64, 64]. */
  lemma OthelloRules()
    ensures Implements(Othello) && KeepsShape(Othello) && EvalBounded(Othello)
  {
    forall b: Board, p: int | WellFormed(b) ensures -Size * Size <= Othello.eval(b, p) <= Size * Size {
      EvaluationBounds(b, p);
    }
  }

  /** The score of a finished game won by the player with `depth` plies of search left. */
  const WinScore := 99999
  /** The score of a finished game lost by the player. */
  const LossScore := -9999

  /** The side to move: the player, or the opponent on the opponent's plies. */
  function Mover(player: int, isOpponent: bool): (m: int)
    ensures isOpponent ==> m == GetOpponent(player)
    ensures !isOpponent ==> m == player
  {
    if isOpponent then GetOpponent(player) else player
  }

  /** The score of a finished game, from the final disc difference: a win is worth
      more the sooner it comes, a loss is a flat -9999, a draw 0. */
  function TerminalScore(finalScore: int, depth: nat): (s: int)
    ensures finalScore > 0 ==> s == WinScore * depth
    ensures finalScore < 0 ==> s == LossScore
    ensures finalScore == 0 ==> s == 0
  {
    if finalScore > 0 then WinScore * depth else if finalScore < 0 then LossScore else 0
  }

  /** The minimax value of a position for `player` under rules g, with `depth` plies
      left and `isOpponent` telling whose turn it is: the evaluation at depth 0, the
      terminal score when neither side can move, the value one ply deeper with the
      turn passed when only the side to move is stuck, and otherwise the best child
      value for the side to move (highest for the player, lowest for the opponent). */
  function Value(g: Rules, b: Board, depth: nat, player: int, isOpponent: bool): int
    decreases depth, 1, 0
  {
    if depth == 0 then g.eval(b, player)
    else if |g.moves(b, Mover(player, isOpponent))| > 0 then
      BestOf(g, b, depth - 1, player, isOpponent, |g.moves(b, Mover(player, isOpponent))|)
    else if |g.moves(b, GetOpponent(Mover(player, isOpponent)))| > 0 then
      Value(g, b, depth - 1, player, !isOpponent)
    else
      TerminalScore(g.eval(b, player), depth)
  }

  /** The value of the position after the side to move plays its j-th generated move. */
  function ChildValue(g: Rules, b: Board, d: nat, player: int, isOpponent: bool, j: nat): int
    requires j < |g.moves(b, Mover(player, isOpponent))|
    decreases d, 2, 0
  {
    Value(g, g.play(b, g.moves(b, Mover(player, isOpponent))[j], Mover(player, isOpponent)), d, player, !isOpponent)
  }

  /** The best of the first k child values: the maximum on the player's plies, the
      minimum on the opponent's. */
  function BestOf(g: Rules, b: Board, d: nat, player: int, isOpponent: bool, k: nat): int
    requires 1 <= k <= |g.moves(b, Mover(player, isOpponent))|
    decreases d + 1, 0, k
  {
    if k == 1 then ChildValue(g, b, d, player, isOpponent, 0)
    else if isOpponent then
      Smaller(BestOf(g, b, d, player, isOpponent, k - 1), ChildValue(g, b, d, player, isOpponent, k - 1))
    else
      Larger(BestOf(g, b, d, player, isOpponent, k - 1), ChildValue(g, b, d, player, isOpponent, k - 1))
  }

  /** Math.max on finite scores: ExtInt.Max restricted to the integers. */
  function Larger(x: int, y: int): (r: int)
    ensures x <= r && y <= r && (r == x || r == y)
  {
    Max(Fin(x), Fin(y)).val
  }

  /** Math.min on finite scores: ExtInt.Min restricted to the integers. */
  function Smaller(x: int, y: int): (r: int)
    ensures r <= x && r <= y && (r == x || r == y)
  {
    Min(Fin(x), Fin(y)).val
  }

  /** BestOf is what it claims: on the player's plies an upper bound of the first k
      child values, on the opponent's a lower bound, and one of them attains it. */
  lemma {:induction false} BestOfIsExtreme(g: Rules, b: Board, d: nat, player: int, isOpponent: bool, k: nat)
    requires 1 <= k <= |g.moves(b, Mover(player, isOpponent))|
    ensures !isOpponent ==> forall j :: 0 <= j < k ==> ChildValue(g, b, d, player, isOpponent, j) <= BestOf(g, b, d, player, isOpponent, k)
    ensures isOpponent ==> forall j :: 0 <= j < k ==> BestOf(g, b, d, player, isOpponent, k) <= ChildValue(g, b, d, player, isOpponent, j)
    ensures exists j :: 0 <= j < k && ChildValue(g, b, d, player, isOpponent, j) == BestOf(g, b, d, player, isOpponent, k)
    decreases k
  {
    if k == 1 {
      assert ChildValue(g, b, d, player, isOpponent, 0) == BestOf(g, b, d, player, isOpponent, 1);
    } else {
      BestOfIsExtreme(g, b, d, player, isOpponent, k - 1);
      var j :| 0 <= j < k - 1 && ChildValue(g, b, d, player, isOpponent, j) == BestOf(g, b, d, player, isOpponent, k - 1);
      if ChildValue(g, b, d, player, isOpponent, k - 1) != BestOf(g, b, d, player, isOpponent, k) {
        assert ChildValue(g, b, d, player, isOpponent, j) == BestOf(g, b, d, player, isOpponent, k);
      }
    }
  }

  /** Looking at more children only raises the best on the player's plies and only
      lowers it on the opponent's. */
  lemma {:induction false} BestOfMonotone(g: Rules, b: Board, d: nat, player: int, isOpponent: bool, j: nat, k: nat)
    requires 1 <= j <= k <= |g.moves(b, Mover(player, isOpponent))|
    ensures !isOpponent ==> BestOf(g, b, d, player, isOpponent, j) <= BestOf(g, b, d, player, isOpponent, k)
    ensures isOpponent ==> BestOf(g, b, d, player, isOpponent, k) <= BestOf(g, b, d, player, isOpponent, j)
    decreases k
  {
    if j < k {
      BestOfMonotone(g, b, d, player, isOpponent, j, k - 1);
    }
  }

  /** The largest score reachable with `depth` plies left. */
  function Ceiling(depth: nat): (c: int)
    ensures c >= Size * Size
    ensures depth > 0 ==> c == WinScore * depth
  {
    if depth == 0 then Size * Size else WinScore * depth
  }

  /** Every minimax value of an 8 by 8 board lies between the loss score and the ceiling of its depth. */
  lemma {:induction false} ValueBounds(g: Rules, b: Board, depth: nat, player: int, isOpponent: bool)
    requires KeepsShape(g) && EvalBounded(g) && WellFormed(b)
    ensures LossScore <= Value(g, b, depth, player, isOpponent) <= Ceiling(depth)
    decreases depth, 1, 0
  {
    if depth > 0 {
      if |g.moves(b, Mover(player, isOpponent))| > 0 {
        BestOfBounds(g, b, depth - 1, player, isOpponent, |g.moves(b, Mover(player, isOpponent))|);
      } else if |g.moves(b, GetOpponent(Mover(player, isOpponent)))| > 0 {
        ValueBounds(g, b, depth - 1, player, !isOpponent);
      }
    }
  }

  /** The best of the first k children lies within the bounds of the parent's depth. */
  lemma {:induction false} BestOfBounds(g: Rules, b: Board, d: nat, player: int, isOpponent: bool, k: nat)
    requires KeepsShape(g) && EvalBounded(g) && WellFormed(b)
    requires 1 <= k <= |g.moves(b, Mover(player, isOpponent))|
    ensures LossScore <= BestOf(g, b, d, player, isOpponent, k) <= Ceiling(d + 1)
    decreases d + 1, 0, k
  {
    var cur := Mover(player, isOpponent);
    ValueBounds(g, g.play(b, g.moves(b, cur)[k - 1], cur), d, player, !isOpponent);
    if k > 1 {
      BestOfBounds(g, b, d, player, isOpponent, k - 1);
    }
  }

  /** The fail-soft alpha-beta contract: a score at or below alpha is an upper bound
      of the true value, a score strictly inside the window is the true value, and a
      score at or above beta is a lower bound of it. */
  predicate FailSoft(score: int, value: int, alpha: ExtInt, beta: ExtInt)
  {
    && (Le(Fin(score), alpha) ==> value <= score)
    && (Lt(alpha, Fin(score)) && Lt(Fin(score), beta) ==> value == score)
    && (Le(beta, Fin(score)) ==> score <= value)
  }

  /** With the full window (-Infinity, Infinity) a fail-soft score is the exact value. */
  lemma FullWindowIsExact(score: int, value: int)
    requires FailSoft(score, value, NegInf, PosInf)
    ensures score == value
  {
    assert Lt(NegInf, Fin(score)) && Lt(Fin(score), PosInf);
  }

  /** getPossibleMoves as the search sees it: the move list of the rules g, every move on the board. */
  method MovesOf(ghost g: Rules, b: Board, player: int) returns (moves: seq<Pos>)
    requires Implements(g) && WellFormed(b)
    ensures moves == g.moves(b, player)
    ensures forall j :: 0 <= j < |moves| ==> InBounds(moves[j])
  {
    moves := GetPossibleMoves(b, player);
    LegalMovesInBounds(b, player);
  }

  /** minimax: the score of a position for `player` under alpha-beta pruning, a
      fail-soft bound of its minimax value under any rules that agree with the
      engine's operations. */
  method Minimax(ghost g: Rules, b: Board, depth: nat, player: int, isOpponent: bool, alpha: ExtInt, beta: ExtInt)
    returns (score: int)
    requires Implements(g) && WellFormed(b)
    ensures Lt(alpha, beta) ==> FailSoft(score, Value(g, b, depth, player, isOpponent), alpha, beta)
    ensures LossScore <= score <= Ceiling(depth)
    decreases depth, 1
  {
    if depth == 0 {
      score := EvaluatePosition(b, player);
      EvaluationBounds(b, player);
      return;
    }
    var currentPlayer := if isOpponent then GetOpponent(player) else player;
    var moves := MovesOf(g, b, currentPlayer);
    if |moves| == 0 {
      var opponentMoves := MovesOf(g, b, GetOpponent(currentPlayer));
      if |opponentMoves| == 0 {
        var finalScore := EvaluatePosition(b, player);
        if finalScore > 0 {
          score := WinScore * depth;
        } else if finalScore < 0 {
          score := LossScore;
        } else {
          score := 0;
        }
        return;
      }
      score := Minimax(g, b, depth - 1, player, !isOpponent, alpha, beta);
      return;
    }
    if !isOpponent {
      score := MaxNode(g, b, depth, player, moves, alpha, beta);
    } else {
      score := MinNode(g, b, depth, player, moves, alpha, beta);
    }
  }

  /** One child of the player's ply: folding a fail-soft child score s of a child of
      value v into the running best keeps the running best an upper bound of the best
      child value so far, exact once above alpha, and a lower bound at a cutoff. */
  lemma MaxStep(alpha: ExtInt, beta: ExtInt, best: ExtInt, prev: int, v: int, s: int)
    requires Lt(Max(alpha, best), beta) && best != PosInf
    requires best == NegInf ==> prev == v
    requires best.Fin? ==> prev <= best.val && (Lt(alpha, best) ==> prev == best.val)
    requires FailSoft(s, v, Max(alpha, best), beta)
    ensures Max(best, Fin(s)).Fin?
    ensures Lt(Max(alpha, Max(best, Fin(s))), beta) ==> Larger(prev, v) <= Max(best, Fin(s)).val
    ensures Lt(alpha, Max(best, Fin(s))) && Lt(Max(best, Fin(s)), beta) ==> Larger(prev, v) == Max(best, Fin(s)).val
    ensures Le(beta, Max(alpha, Max(best, Fin(s)))) ==> Max(best, Fin(s)).val <= v && Le(beta, Max(best, Fin(s)))
  {
  }

  /** One child of the opponent's ply: the mirror image of MaxStep. */
  lemma MinStep(alpha: ExtInt, beta: ExtInt, best: ExtInt, prev: int, v: int, s: int)
    requires Lt(alpha, Min(beta, best)) && best != NegInf
    requires best == PosInf ==> prev == v
    requires best.Fin? ==> best.val <= prev && (Lt(best, beta) ==> prev == best.val)
    requires FailSoft(s, v, alpha, Min(beta, best))
    ensures Min(best, Fin(s)).Fin?
    ensures Lt(alpha, Min(beta, Min(best, Fin(s)))) ==> Min(best, Fin(s)).val <= Smaller(prev, v)
    ensures Lt(alpha, Min(best, Fin(s))) && Lt(Min(best, Fin(s)), beta) ==> Smaller(prev, v) == Min(best, Fin(s)).val
    ensures Le(Min(beta, Min(best, Fin(s))), alpha) ==> v <= Min(best, Fin(s)).val && Le(Min(best, Fin(s)), alpha)
  {
  }

  /** One child of a ply: simulate the side to move's i-th move and search the result
      one ply deeper with the turn passed. */
  method SearchChild(ghost g: Rules, b: Board, d: nat, player: int, isOpponent: bool, moves: seq<Pos>, i: nat,
                     alpha: ExtInt, beta: ExtInt) returns (score: int)
    requires Implements(g) && WellFormed(b)
    requires moves == g.moves(b, Mover(player, isOpponent)) && i < |moves| && InBounds(moves[i])
    ensures Lt(alpha, beta) ==> FailSoft(score, ChildValue(g, b, d, player, isOpponent, i), alpha, beta)
    ensures LossScore <= score <= Ceiling(d)
    decreases d, 2
  {
    var child := SimulateMove(b, moves[i], Mover(player, isOpponent));
    score := Minimax(g, child, d, player, !isOpponent, alpha, beta);
  }

  /** A finite running best lies between the loss score and the ceiling of the depth. */
  predicate InRange(best: ExtInt, depth: nat)
  {
    best.Fin? ==> LossScore <= best.val <= Ceiling(depth)
  }

  /** The state of the player's ply after its first i children: a is alpha raised to
      the best score, the best score is finite once a child has been searched, bounds
      the best child value from above, and equals it once above alpha. */
  ghost predicate MaxProgress(g: Rules, b: Board, d: nat, player: int, alpha: ExtInt, beta: ExtInt,
                              i: nat, a: ExtInt, best: ExtInt)
    requires i <= |g.moves(b, Mover(player, false))|
  {
    && a == Max(alpha, best)
    && (i == 0 <==> best == NegInf)
    && (i > 0 ==> best.Fin? && Lt(a, beta)
                  && BestOf(g, b, d, player, false, i) <= best.val
                  && (Lt(alpha, best) ==> BestOf(g, b, d, player, false, i) == best.val))
  }

  /** One child of the player's ply, folded into the state: the running best and alpha
      keep MaxProgress unless they reach beta, and at that cutoff the best score is a
      lower bound of the best child value so far. */
  lemma MaxFold(g: Rules, b: Board, d: nat, player: int, alpha: ExtInt, beta: ExtInt,
                i: nat, a: ExtInt, best: ExtInt, s: int)
    requires i < |g.moves(b, Mover(player, false))| && Lt(alpha, beta)
    requires MaxProgress(g, b, d, player, alpha, beta, i, a, best)
    requires FailSoft(s, ChildValue(g, b, d, player, false, i), a, beta)
    ensures Lt(Max(a, Max(best, Fin(s))), beta) ==>
      MaxProgress(g, b, d, player, alpha, beta, i + 1, Max(a, Max(best, Fin(s))), Max(best, Fin(s)))
    ensures Le(beta, Max(a, Max(best, Fin(s)))) ==>
      Max(best, Fin(s)).Fin? && Le(beta, Max(best, Fin(s))) && Max(best, Fin(s)).val <= BestOf(g, b, d, player, false, i + 1)
  {
    var v := ChildValue(g, b, d, player, false, i);
    var prev := if i == 0 then v else BestOf(g, b, d, player, false, i);
    assert BestOf(g, b, d, player, false, i + 1) == Larger(prev, v);
    MaxStep(alpha, beta, best, prev, v, s);
  }

  /** The player's ply of minimax: raise the best score and alpha over the children,
      stopping at a beta cutoff. */
  method MaxNode(ghost g: Rules, b: Board, depth: nat, player: int, moves: seq<Pos>, alpha: ExtInt, beta: ExtInt)
    returns (score: int)
    requires Implements(g) && WellFormed(b) && depth >= 1
    requires moves == g.moves(b, Mover(player, false)) && |moves| > 0
    requires forall j :: 0 <= j < |moves| ==> InBounds(moves[j])
    ensures Lt(alpha, beta) ==> FailSoft(score, BestOf(g, b, depth - 1, player, false, |moves|), alpha, beta)
    ensures LossScore <= score <= Ceiling(depth)
    decreases depth, 0
  {
    var bestScore: ExtInt := NegInf;
    var a := alpha;
    for i := 0 to |moves|
      invariant MaxProgress(g, b, depth - 1, player, alpha, beta, i, a, bestScore)
      invariant InRange(bestScore, depth)
    {
      var s := SearchChild(g, b, depth - 1, player, false, moves, i, a, beta);
      if Lt(alpha, beta) {
        MaxFold(g, b, depth - 1, player, alpha, beta, i, a, bestScore, s);
      }
      bestScore := Max(bestScore, Fin(s));
      a := Max(a, bestScore);
      if Le(beta, a) {
        BestOfMonotone(g, b, depth - 1, player, false, i + 1, |moves|);
        break;
      }
    }
    score := bestScore.val;
  }

  /** The state of the opponent's ply after its first i children: bt is beta lowered to
      the best score, the best score is finite once a child has been searched, bounds
      the worst child value from below, and equals it once below beta. */
  ghost predicate MinProgress(g: Rules, b: Board, d: nat, player: int, alpha: ExtInt, beta: ExtInt,
                              i: nat, bt: ExtInt, best: ExtInt)
    requires i <= |g.moves(b, Mover(player, true))|
  {
    && bt == Min(beta, best)
    && (i == 0 <==> best == PosInf)
    && (i > 0 ==> best.Fin? && Lt(alpha, bt)
                  && best.val <= BestOf(g, b, d, player, true, i)
                  && (Lt(best, beta) ==> BestOf(g, b, d, player, true, i) == best.val))
  }

  /** One child of the opponent's ply, folded into the state: the mirror image of MaxFold. */
  lemma MinFold(g: Rules, b: Board, d: nat, player: int, alpha: ExtInt, beta: ExtInt,
                i: nat, bt: ExtInt, best: ExtInt, s: int)
    requires i < |g.moves(b, Mover(player, true))| && Lt(alpha, beta)
    requires MinProgress(g, b, d, player, alpha, beta, i, bt, best)
    requires FailSoft(s, ChildValue(g, b, d, player, true, i), alpha, bt)
    ensures Lt(alpha, Min(bt, Min(best, Fin(s)))) ==>
      MinProgress(g, b, d, player, alpha, beta, i + 1, Min(bt, Min(best, Fin(s))), Min(best, Fin(s)))
    ensures Le(Min(bt, Min(best, Fin(s))), alpha) ==>
      Min(best, Fin(s)).Fin? && Le(Min(best, Fin(s)), alpha) && BestOf(g, b, d, player, true, i + 1) <= Min(best, Fin(s)).val
  {
    var v := ChildValue(g, b, d, player, true, i);
    var prev := if i == 0 then v else BestOf(g, b, d, player, true, i);
    assert BestOf(g, b, d, player, true, i + 1) == Smaller(prev, v);
    MinStep(alpha, beta, best, prev, v, s);
  }

  /** The opponent's ply of minimax: lower the best score and beta over the children,
      stopping at an alpha cutoff. */
  method MinNode(ghost g: Rules, b: Board, depth: nat, player: int, moves: seq<Pos>, alpha: ExtInt, beta: ExtInt)
    returns (score: int)
    requires Implements(g) && WellFormed(b) && depth >= 1
    requires moves == g.moves(b, Mover(player, true)) && |moves| > 0
    requires forall j :: 0 <= j < |moves| ==> InBounds(moves[j])
    ensures Lt(alpha, beta) ==> FailSoft(score, BestOf(g, b, depth - 1, player, true, |moves|), alpha, beta)
    ensures LossScore <= score <= Ceiling(depth)
    decreases depth, 0
  {
    var bestScore: ExtInt := PosInf;
    var bt := beta;
    for i := 0 to |moves|
      invariant MinProgress(g, b, depth - 1, player, alpha, beta, i, bt, bestScore)
      invariant InRange(bestScore, depth)
    {
      var s := SearchChild(g, b, depth - 1, player, true, moves, i, alpha, bt);
      if Lt(alpha, beta) {
        MinFold(g, b, depth - 1, player, alpha, beta, i, bt, bestScore, s);
      }
      bestScore := Min(bestScore, Fin(s));
      bt := Min(bt, bestScore);
      if Le(bt, alpha) {
        BestOfMonotone(g, b, depth - 1, player, true, i + 1, |moves|);
        break;
      }
    }
    score := bestScore.val;
  }
}
