# Othello move engine — a verified Dafny model

This project models `util.js`, the move-selection engine of an 8×8 Othello (Reversi)
player. A board is a list of eight rows of eight cells: `0` is empty, and `1` and `2` are
the two players' discs. The engine has these parts:

- **Board rules.**
  - `getOpponent` maps 1 to 2 and every other value to 1.
  - `isValidMove` is the sandwich test. The target cell must be empty, and in some
    direction of the eight-entry `directions` table there must be one or more opponent
    discs followed, on the board, by one of the mover's discs.
  - `simulateMove` copies the board, places the disc and flips every closed run. The flip
    scans read the original board, and no legality check is made.
- **Move generation.** `getPossibleMoves` scans the cells row by row and collects every
  cell that `isValidMove` accepts.
- **Evaluation.** `evaluatePosition` adds 1 for each of the player's discs and subtracts 1
  for every other non-empty cell.
- **Search.** `minimax` is a depth-bounded minimax with fail-soft alpha-beta cutoffs.
  - When the side to move has no move but the other side has, it passes the turn on the
    same board with one ply less.
  - When neither side can move, it scores the game: `99999 * depth` for a win, `-9999`
    for a loss and `0` for a draw.
- **Root.** `getMove` searches every legal move to `MAX_DEPTH = 9`. It raises alpha over
  the sibling moves and keeps a move only when it scores strictly higher than the best so
  far. It returns `null` when there is no move.
  - As written, the root calls `minimax` with `isOpponent = false`, so the ply after the
    root move is again the player's. The model keeps this.
- **Response.** `prepareResponse` writes the move as JSON followed by a newline.

How the model is structured:

- The loops of the source are methods with loop invariants, each proved against a
  specification function:
  - `IsValidMove` against `IsLegal`;
  - `SimulateMove` against `Simulated`;
  - `GetPossibleMoves` against `LegalMoves`;
  - `EvaluatePosition` against `Evaluation`;
  - `Minimax` against the plain minimax value `Value`;
  - `GetMove` against `BestMove`.
- The properties the engine promises are proved about those functions as lemmas.
- Boards are immutable values (`seq<seq<int>>`). The source never mutates its input
  board, and `simulateMove`'s clone is a local that the model updates cell by cell.
- `±Infinity` is the datatype `ExtInt.ExtInt`, which has `NegInf`, `Fin(n)` and `PosInf`.
- The search is specified over a `Rules` value: a move generator, a move simulator and an
  evaluator.
  - `Implements(g)` says that g agrees with the engine's own operations.
  - `OthelloRules` proves that the engine's rules `Othello` are such rules.
  - `Minimax` and `GetMove` take g as a ghost parameter, which exists only for the proof
    and has no runtime effect.

Files:

| file | module | source |
|---|---|---|
| ext_int.dfy | ExtInt | the ±Infinity values and `Math.max` / `Math.min` |
| board_model.dfy | BoardModel | `directions`, `getOpponent`, `isValidMove`, `simulateMove` |
| evaluator.dfy | Evaluator | `evaluatePosition` |
| move_generator.dfy | MoveGenerator | `getPossibleMoves` |
| search_engine.dfy | SearchEngine | `minimax` |
| move_selector.dfy | MoveSelector | `MAX_DEPTH`, `getMove` |
| response.dfy | Response | `prepareResponse` |
| starter_board.dfy | StarterBoard | the opening position of test.js and its moves |

## Model

| member | source | states |
|---|---|---|
| ExtInt.Max | util.js:114-115 | `Math.max` on extended integers: an upper bound of both arguments that is one of them |
| ExtInt.Min | util.js:133-134 | `Math.min` on extended integers: a lower bound of both arguments that is one of them |
| BoardModel.DirectionsAreCompass | util.js:6-9 | the direction table holds exactly the eight unit compass steps, each once |
| BoardModel.GetOpponent | util.js:236-241 | the opponent is always 1 or 2 and never the player itself, and it is 1 for every value other than 1 |
| BoardModel.OpponentInvolutive | util.js:236-241 | on the players 1 and 2 the opponent is `3 - p`, and taking it twice gives p back |
| BoardModel.RunFromSpec | util.js:166-170 | the counted run of v cells is all v and on the board, and it stops off the board or at a cell that is not v |
| BoardModel.BracketsIffSandwiched | util.js:260-278 | the computed direction test holds iff some k ≥ 1 opponent discs and then a player disc line up from the move (both directions) |
| BoardModel.LegalIffSandwich | util.js:253-282 | a move is legal iff its cell is empty and some table direction holds such a sandwich |
| BoardModel.RunCells | util.js:161-170 | every cell the scan collects is an on-board opponent disc other than the move cell |
| BoardModel.SimulatedEffect | util.js:155-181 | after a move, the move cell holds the player; captured cells were opponent discs and now hold the player; every other cell is unchanged and the board is still 8×8 |
| BoardModel.LegalIffFlips | util.js:253-282 | a move is legal iff its cell is empty and playing it changes some other cell |
| BoardModel.NoOpponentAdjacent | util.js:253-282 | a move with no opponent disc on any of its on-board neighbours is not legal |
| BoardModel.OneOpponentNeighbour | util.js:253-282 | a move whose only opponent neighbour lies in a direction that does not bracket is not legal |
| BoardModel.UnclosedRun | util.js:260-278 | a run of exactly n opponent discs followed by neither an opponent nor (when n ≥ 1) a player disc has length n and brackets nothing |
| BoardModel.LoneRunNotLegal | util.js:253-282 | a move whose only opponent neighbour starts such an unclosed run is not legal |
| BoardModel.ClosedByOne | util.js:253-282 | an empty cell followed by one opponent disc and then a player disc is a legal move |
| BoardModel.ScanDirection | util.js:260-278 | the walk in one direction reports true exactly when that direction closes a sandwich |
| BoardModel.IsValidMove | util.js:253-282 | `isValidMove` returns exactly the legality of the cell |
| BoardModel.PaintCells | util.js:173-175 | writing the player into the listed cells sets exactly those cells |
| BoardModel.FlippedUpToStart | util.js:157-159 | before any direction is scanned, the clone differs from the board only at the move cell |
| BoardModel.FlippedUpToStep | util.js:161-178 | scanning one direction flips its run when a player disc closes it, and changes nothing otherwise |
| BoardModel.FlippedUpToAll | util.js:161-180 | after all eight directions the clone is the simulated board |
| BoardModel.CollectRun | util.js:162-170 | the while loop collects exactly the opponent run next to the move, read from the original board, and stops one cell past it |
| BoardModel.FlipPieces | util.js:173-175 | the for loop writes the player into every collected cell |
| BoardModel.SimulateMove | util.js:155-181 | `simulateMove` returns the simulated board: the move placed and every closed run flipped |
| Evaluator.CellScore | util.js:198-201 | a cell scores +1 for the player's disc, 0 when empty and -1 otherwise |
| Evaluator.RowScoreIsDifference | util.js:197-202 | a row scores its player discs minus its opponent discs |
| Evaluator.EvaluationIsDiscDifference | util.js:192-206 | on boards of 0, 1 and 2 the evaluation is the player's discs minus the opponent's |
| Evaluator.EvaluationAntisymmetric | util.js:192-206 | evaluating for the opponent negates the score |
| Evaluator.RowScoreBounds | util.js:197-202 | a row scores between minus and plus its length |
| Evaluator.RowsScoreBounds | util.js:196-203 | rows of width w score between -w and w per row |
| Evaluator.EvaluationBounds | util.js:192-206 | the evaluation of an 8×8 board lies in [-64, 64] |
| Evaluator.EvaluatePosition | util.js:192-206 | the nested loops return the evaluation |
| MoveGenerator.RowScanHas | util.js:219-223 | a cell is in a row's scan iff it is in that row, before the column bound, and passes the test |
| MoveGenerator.RowScanOrdered | util.js:219-223 | a row's scan lists its cells in increasing column order |
| MoveGenerator.ScanHas | util.js:218-224 | a cell is in the board scan iff it lies within the scanned rows and columns and passes the test |
| MoveGenerator.ScanOrdered | util.js:218-224 | the board scan lists its cells in strictly increasing row-major order |
| MoveGenerator.LegalMovesSpec | util.js:216-227 | the move list holds exactly the on-board legal cells, in strictly increasing row-major order, without duplicates |
| MoveGenerator.LegalMovesInBounds | util.js:216-227 | every listed move is a cell of the board |
| MoveGenerator.TailMember | util.js:216-227 | in two strictly ordered lists of the same cells with the same head, a cell after the head of one is after the head of the other |
| MoveGenerator.OrderedListsEqual | util.js:216-227 | two lists in strictly increasing row-major order holding the same cells are equal |
| MoveGenerator.MovesAre | util.js:216-227 | any list of board cells in strictly increasing row-major order that holds exactly the legal cells is the move list |
| MoveGenerator.ScanRow | util.js:219-223 | the inner loop appends the row's legal cells, in column order, to the list built so far |
| MoveGenerator.GetPossibleMoves | util.js:216-227 | `getPossibleMoves` returns the move list |
| SearchEngine.OthelloRules | util.js:76-143 | the engine's rules agree with its own operations, keep boards 8×8 and evaluate within [-64, 64] |
| SearchEngine.Mover | util.js:80 | the side to move is the opponent on the opponent's plies and the player otherwise |
| SearchEngine.TerminalScore | util.js:86-95 | a finished game scores `99999 * depth` when won, `-9999` when lost and `0` when drawn |
| SearchEngine.Larger | util.js:114 | `Math.max` on finite scores, taken from `ExtInt.Max`: an upper bound of both and one of them |
| SearchEngine.Smaller | util.js:133 | `Math.min` on finite scores, taken from `ExtInt.Min`: a lower bound of both and one of them |
| SearchEngine.BestOfIsExtreme | util.js:102-140 | the best of the first k children bounds every one of them (from above on the player's plies, from below on the opponent's) and is attained by one |
| SearchEngine.BestOfMonotone | util.js:117-119 | looking at more children only raises the maximum and only lowers the minimum, so a cutoff bound stays valid |
| SearchEngine.ValueBounds | util.js:76-98 | every minimax value of an 8×8 board lies between -9999 and `max(64, 99999 * depth)` |
| SearchEngine.BestOfBounds | util.js:100-142 | the best child value lies within the same bounds as its parent |
| SearchEngine.FullWindowIsExact | util.js:27-28 | with the window (-Infinity, Infinity) a fail-soft score is the exact value |
| SearchEngine.MovesOf | util.js:81 | the generated move list is the rules' list, and every move is on the board |
| SearchEngine.Minimax | util.js:76-143 | `minimax` returns a fail-soft alpha-beta bound of the plain minimax value: at or below alpha an upper bound, inside the window exact, at or above beta a lower bound; with the full window it equals plain minimax; every returned score lies between -9999 and `max(64, 99999 * depth)` |
| SearchEngine.MaxStep | util.js:114-119 | folding one child score into the player's running best keeps it an upper bound of the best child value, exact above alpha, and a lower bound at a beta cutoff |
| SearchEngine.MinStep | util.js:133-138 | the mirror image of MaxStep for the opponent's plies |
| SearchEngine.SearchChild | util.js:106-113 | searching one child gives a fail-soft bound of that child's minimax value, between -9999 and the ceiling of the child's depth |
| SearchEngine.MaxFold | util.js:106-119 | one child folded into the player's loop keeps the running best an upper bound of the best child value so far, exact above alpha, and a lower bound of it at a beta cutoff |
| SearchEngine.MaxNode | util.js:102-120 | the player's loop returns a fail-soft bound of the best child value, cutoff included, between -9999 and the ceiling of the depth |
| SearchEngine.MinFold | util.js:125-138 | the mirror image of MaxFold for the opponent's loop and its alpha cutoff |
| SearchEngine.MinNode | util.js:121-140 | the opponent's loop returns a fail-soft bound of the worst child value, cutoff included, between -9999 and the ceiling of the depth |
| MoveSelector.FirstBest | util.js:52-55 | the first-best index lies among the moves examined |
| MoveSelector.FirstBestIsFirstMaximum | util.js:52-56 | the chosen index has the highest root value, and every earlier move is strictly worse (the strict `>` tie-break) |
| MoveSelector.BestMoveSpec | util.js:23-61 | no move iff the move list is empty; otherwise a listed move of the highest root value with every earlier move strictly worse |
| MoveSelector.BestMoveIsLegal | util.js:23-61 | no move iff `getPossibleMoves` is empty; otherwise the move is an on-board legal cell |
| MoveSelector.RootFold | util.js:38-56 | one root move, scored fail-soft under (alpha, Infinity) and kept only when strictly higher, leaves the best move the first best so far and alpha its exact score |
| MoveSelector.GetMove | util.js:23-61 | `getMove`, despite raising alpha over the root's moves, returns exactly the first move of highest minimax value, as a search without cache or root pruning would |
| Response.DigitChar | util.js:285 | a digit's character is between '0' and '9' and denotes that digit |
| Response.Digits | util.js:285 | an integer's decimal digits: at least one digit, one exactly below 10, and no leading zero |
| Response.DigitsRoundTrip | util.js:285 | reading the digits of n gives n back |
| Response.IntText | util.js:285 | an integer's text is non-empty, has no comma or bracket, and is one character for 0..9 |
| Response.NegativeTextRoundTrip | util.js:285 | reading back the text of a negative integer gives it again |
| Response.NonNegativeTextRoundTrip | util.js:285 | reading back the text of a non-negative integer gives it again |
| Response.IntTextRoundTrip | util.js:285 | reading back the text of any integer gives it again |
| Response.PrepareResponse | util.js:284-288 | the response is a non-empty line ending in a newline |
| Response.ResponseRoundTrip | util.js:284-288 | the response determines the move: parsing it gives back the move, or null |
| Response.BoardMoveResponse | util.js:284-288 | a move on the board is written as exactly `[r,c]` and a newline: six characters |
| Response.ResponseForTwoThree | test.js:18-20 | the move [2, 3] is written as `[2,3]` and a newline |
| StarterBoard.StarterWellFormed | test.js:2-11 | the opening position is an 8×8 board |
| StarterBoard.Quiet | test.js:22-26 | a cell more than one step from both of player 2's discs is not a move for player 1 |
| StarterBoard.ClosedFour | test.js:22-26 | [2,3], [3,2], [4,5] and [5,4] are moves for player 1 |
| StarterBoard.NearThreeThree | test.js:22-26 | the other empty cells next to the disc at [3,3] are not moves |
| StarterBoard.NearFourFour | test.js:22-26 | the other empty cells next to the disc at [4,4] are not moves |
| StarterBoard.Occupied | test.js:22-26 | the four centre cells are not moves |
| StarterBoard.StarterLegal | test.js:22-26 | a cell is a move for player 1 exactly when it is one of the four |
| StarterBoard.StarterMoves | test.js:22-26 | `getPossibleMoves(starterBoard, 1)` is exactly [2,3], [3,2], [4,5], [5,4] in this order, so its first element is [2,3] as the test expects |

## Left out

- The `calculatedMoves` map (util.js:12, 31, 48) is not modelled. Its keys are fresh array literals, and a JavaScript `Map` compares keys by reference, so `get` never finds an entry and the map never affects a result.
- client.js (the TCP connection and JSON parsing of requests) and benchmark.js (the WebSocket listener, child processes, files and timers) are I/O and not part of this model. The depth argument that client.js passes to `getMove` is ignored by the source and is absent from the model.
- `JSON.stringify` is modelled only for what `prepareResponse` receives: `null` or a pair of integers below 10^21 in magnitude. JavaScript writes larger numbers in exponent form (`1e+21`), which `IntText` does not. Moves on the board are 0..7.
- The concrete test that `getMove(1, board)` returns [2, 3] at depth 9 (test.js:13-16) is not discharged. The depth-9 search tree is far too large to evaluate in a proof.
- JavaScript numbers and `Infinity` are unbounded integers and `ExtInt` values. Every score in the engine is an integer far from 2^53, so no floating-point rounding is lost.
- Boards are values, and `simulateMove`'s `board.map(row => row.slice())` copy is the model's value semantics. Sharing between rows of different boards is therefore not modelled, and no source code observes it.
- The model treats boards of any other shape as outside the engine's domain. Every operation requires an 8×8 board (`WellFormed`), because the source's loops are fixed to 0..7. The source's behaviour on other shapes is not modelled:
  - with fewer than 8 rows, `board[i][j]` throws a TypeError;
  - a row shorter than 8 yields `undefined` cells, which `isValidMove` treats as occupied and `evaluatePosition` counts against the player;
  - a larger board is read only in its top-left 8×8 corner, and `simulateMove` copies the rest unchanged.
- The per-direction walk of `isValidMove`, the inner row loop of `getPossibleMoves` and one child search of `minimax` are separate methods (`ScanDirection`, `ScanRow`, `SearchChild`). In `isValidMove`, the source's `return true` from inside the walk becomes `ScanDirection` reporting true, and `IsValidMove` then returning true at once.
- `simulateMove` does not check legality, and the model keeps that: `SimulateMove` requires only an on-board move.
