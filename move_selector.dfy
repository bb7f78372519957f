/** getMove: the root of the search. Every legal move is searched to MAX_DEPTH
    and the first move with the highest score is returned, or none when the
    player has no move. */
module MoveSelector {
  import opened ExtInt
  import opened BoardModel
  import opened MoveGenerator
  import opened SearchEngine

  /** How many plies below each root move the search looks. */
  const MaxDepth: nat := 9

  /** The minimax value of the root's j-th move: the position after the player plays
      it, searched to `depth` with the player to move again, as getMove calls minimax. */
  function RootValue(g: Rules, b: Board, player: int, depth: nat, j: nat): int
    requires j < |g.moves(b, player)|
  {
    Value(g, g.play(b, g.moves(b, player)[j], player), depth, player, false)
  }

  /** The index of the first root move whose value is highest among the first k. */
  function FirstBest(g: Rules, b: Board, player: int, depth: nat, k: nat): (i: nat)
    requires 1 <= k <= |g.moves(b, player)|
    ensures i < k
  {
    if k == 1 then 0
    else
      var i := FirstBest(g, b, player, depth, k - 1);
      if RootValue(g, b, player, depth, k - 1) > RootValue(g, b, player, depth, i) then k - 1 else i
  }

  /** The move getMove should pick: none without moves, else the first best one. */
  function BestMove(g: Rules, b: Board, player: int, depth: nat): Option<Pos>
  {
    if |g.moves(b, player)| == 0 then None
    else Some(g.moves(b, player)[FirstBest(g, b, player, depth, |g.moves(b, player)|)])
  }

  /** FirstBest picks a move of the highest value among the first k, and every move
      before it has a strictly lower value: the strict tie-break keeps the earliest. */
  lemma {:induction false} FirstBestIsFirstMaximum(g: Rules, b: Board, player: int, depth: nat, k: nat)
    requires 1 <= k <= |g.moves(b, player)|
    ensures forall j :: 0 <= j < k ==>
      RootValue(g, b, player, depth, j) <= RootValue(g, b, player, depth, FirstBest(g, b, player, depth, k))
    ensures forall j :: 0 <= j < FirstBest(g, b, player, depth, k) ==>
      RootValue(g, b, player, depth, j) < RootValue(g, b, player, depth, FirstBest(g, b, player, depth, k))
  {
    if k > 1 {
      FirstBestIsFirstMaximum(g, b, player, depth, k - 1);
    }
  }

  /** The specification of getMove: no move exactly when the player has none, and
      otherwise one of the generated moves whose value is the highest, with every
      earlier generated move strictly worse. */
  lemma BestMoveSpec(g: Rules, b: Board, player: int)
    ensures BestMove(g, b, player, MaxDepth).None? <==> |g.moves(b, player)| == 0
    ensures BestMove(g, b, player, MaxDepth).Some? ==>
      exists k :: 0 <= k < |g.moves(b, player)| && g.moves(b, player)[k] == BestMove(g, b, player, MaxDepth).value
        && (forall j :: 0 <= j < |g.moves(b, player)| ==>
              RootValue(g, b, player, MaxDepth, j) <= RootValue(g, b, player, MaxDepth, k))
        && (forall j :: 0 <= j < k ==>
              RootValue(g, b, player, MaxDepth, j) < RootValue(g, b, player, MaxDepth, k))
  {
    if |g.moves(b, player)| > 0 {
      FirstBestIsFirstMaximum(g, b, player, MaxDepth, |g.moves(b, player)|);
    }
  }

  /** Under rules that agree with the engine's operations, getMove answers no move
      exactly when getPossibleMoves is empty, and otherwise a legal cell of the board. */
  lemma BestMoveIsLegal(g: Rules, b: Board, player: int)
    requires Implements(g) && WellFormed(b)
    ensures BestMove(g, b, player, MaxDepth).None? <==> |LegalMoves(b, player)| == 0
    ensures BestMove(g, b, player, MaxDepth).Some? ==>
      InBounds(BestMove(g, b, player, MaxDepth).value) && IsLegal(b, player, BestMove(g, b, player, MaxDepth).value)
  {
    var moves := LegalMoves(b, player);
    assert g.moves(b, player) == moves;
    if |moves| > 0 {
      var mv := moves[FirstBest(g, b, player, MaxDepth, |moves|)];
      ScanHas(LegalAt(b, player), |b|, |b|, mv);
    }
  }

  /** The state of the root loop after its first i moves: alpha follows the best score,
      and once a move has been searched the best move is the first best so far and the
      best score its exact value. */
  ghost predicate RootProgress(g: Rules, b: Board, player: int, i: nat, alpha: ExtInt, bestScore: ExtInt, bestMove: Option<Pos>)
    requires i <= |g.moves(b, player)|
  {
    && alpha == bestScore
    && (i == 0 ==> bestScore == NegInf && bestMove == None)
    && (i > 0 ==> bestScore == Fin(RootValue(g, b, player, MaxDepth, FirstBest(g, b, player, MaxDepth, i)))
                  && bestMove == Some(g.moves(b, player)[FirstBest(g, b, player, MaxDepth, i)]))
  }

  /** One root move folded into the state: a fail-soft score of its value under the
      window (alpha, Infinity), kept only when strictly higher, moves RootProgress on by one. */
  lemma RootFold(g: Rules, b: Board, player: int, i: nat, alpha: ExtInt, bestScore: ExtInt, bestMove: Option<Pos>, moveScore: int)
    requires i < |g.moves(b, player)|
    requires RootProgress(g, b, player, i, alpha, bestScore, bestMove)
    requires FailSoft(moveScore, RootValue(g, b, player, MaxDepth, i), alpha, PosInf)
    ensures Lt(bestScore, Fin(moveScore)) ==>
      RootProgress(g, b, player, i + 1, Max(alpha, Fin(moveScore)), Fin(moveScore), Some(g.moves(b, player)[i]))
    ensures !Lt(bestScore, Fin(moveScore)) ==>
      RootProgress(g, b, player, i + 1, Max(alpha, bestScore), bestScore, bestMove)
  {
  }

  /** getMove: search every legal move with the window (alpha, Infinity), alpha raised to
      the best score so far, and keep a move only when it scores strictly higher. The
      ghost g is any rules that agree with the engine's operations (OthelloRules shows
      Othello is such rules); the result is the first best move under them. */
  method GetMove(ghost g: Rules, player: int, b: Board) returns (bestMove: Option<Pos>)
    requires Implements(g) && WellFormed(b)
    ensures bestMove == BestMove(g, b, player, MaxDepth)
  {
    var moves := MovesOf(g, b, player);
    var bestScore: ExtInt := NegInf;
    var alpha: ExtInt := NegInf;
    bestMove := None;
    for i := 0 to |moves|
      invariant RootProgress(g, b, player, i, alpha, bestScore, bestMove)
    {
      var child := SimulateMove(b, moves[i], player);
      var moveScore := Minimax(g, child, MaxDepth, player, false, alpha, PosInf);
      assert Value(g, child, MaxDepth, player, false) == RootValue(g, b, player, MaxDepth, i);
      RootFold(g, b, player, i, alpha, bestScore, bestMove, moveScore);
      if Lt(bestScore, Fin(moveScore)) {
        bestScore := Fin(moveScore);
        bestMove := Some(moves[i]);
      }
      alpha := Max(alpha, bestScore);
    }
  }
}
