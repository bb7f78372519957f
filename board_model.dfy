/** The board, the direction table, the opponent relation, the sandwich test
    (isValidMove) and the move transition (simulateMove) of the engine in util.js. */
module BoardModel {

  /** Side length of the board; every scan in the engine runs over 0..7. */
  const Size := 8

  /** A board as the engine receives it: a list of rows of cell values, where
      0 is an empty cell and 1 and 2 are the two players' discs. */
  type Board = seq<seq<int>>

  /** A cell coordinate [row, column]; moves and discs to flip use it alike. */
  datatype Pos = Pos(r: int, c: int)

  /** A step [drow, dcolumn] of the direction table. */
  datatype Dir = Dir(dr: int, dc: int)

  datatype Option<T> = None | Some(value: T)

  /** The board is 8 x 8, the only shape the engine's fixed loop bounds handle. */
  predicate WellFormed(b: Board)
  {
    |b| == Size && forall i :: 0 <= i < Size ==> |b[i]| == Size
  }

  predicate InBounds(p: Pos)
  {
    0 <= p.r < Size && 0 <= p.c < Size
  }

  function CellAt(b: Board, p: Pos): int
    requires WellFormed(b) && InBounds(p)
  {
    b[p.r][p.c]
  }

  /** The eight compass directions, in the order of the source's table. */
  const Directions: seq<Dir> :=
    [Dir(0, 1), Dir(1, 0), Dir(0, -1), Dir(-1, 0),
     Dir(1, 1), Dir(1, -1), Dir(-1, 1), Dir(-1, -1)]

  /** A unit step in one of the eight compass directions. */
  predicate IsDir(d: Dir)
  {
    -1 <= d.dr <= 1 && -1 <= d.dc <= 1 && d != Dir(0, 0)
  }

  /** The table lists exactly the eight unit steps, each once. */
  lemma DirectionsAreCompass()
    ensures forall d :: d in Directions <==> IsDir(d)
    ensures |Directions| == 8
    ensures forall k, l :: 0 <= k < l < |Directions| ==> Directions[k] != Directions[l]
  {
    forall d | IsDir(d) ensures d in Directions {
      assert d.dr == -1 || d.dr == 0 || d.dr == 1;
      assert d.dc == -1 || d.dc == 0 || d.dc == 1;
    }
  }

  /** getOpponent: 1 plays against 2, and every other value against 1. */
  function GetOpponent(player: int): (q: int)
    ensures q == 1 || q == 2
    ensures q != player
    ensures player != 1 ==> q == 1
  {
    if player == 1 then 2 else 1
  }

  /** On the two real players the opponent relation is an involution. */
  lemma OpponentInvolutive(player: int)
    requires player == 1 || player == 2
    ensures GetOpponent(GetOpponent(player)) == player
    ensures GetOpponent(player) == 3 - player
  {
  }

  /** m * k for a unit component k, written without multiplication. */
  function Scale(m: int, k: int): int
  {
    if k > 0 then m else if k < 0 then -m else 0
  }

  /** The cell m steps away from p in direction d. */
  function Walk(p: Pos, d: Dir, m: int): Pos
  {
    Pos(p.r + Scale(m, d.dr), p.c + Scale(m, d.dc))
  }

  /** How many more steps in direction d stay on the board (a termination measure). */
  function Remaining(p: Pos, d: Dir): int
  {
    if d.dr > 0 then Size - p.r
    else if d.dr < 0 then p.r + 1
    else if d.dc > 0 then Size - p.c
    else p.c + 1
  }

  /** Number of consecutive on-board cells holding v, starting at p and stepping by d
      (a step that is not a compass direction, never in the table, counts nothing). */
  function RunFrom(b: Board, v: int, p: Pos, d: Dir): nat
    requires WellFormed(b)
    decreases Remaining(p, d)
  {
    if IsDir(d) && InBounds(p) && b[p.r][p.c] == v then 1 + RunFrom(b, v, Walk(p, d, 1), d) else 0
  }

  /** The run counted by RunFrom holds v all along and ends off the board or on a cell that is not v. */
  lemma {:induction false} RunFromSpec(b: Board, v: int, p: Pos, d: Dir)
    requires WellFormed(b) && IsDir(d)
    ensures forall m :: 0 <= m < RunFrom(b, v, p, d) ==>
              InBounds(Walk(p, d, m)) && CellAt(b, Walk(p, d, m)) == v
    ensures !(InBounds(Walk(p, d, RunFrom(b, v, p, d))) && CellAt(b, Walk(p, d, RunFrom(b, v, p, d))) == v)
    decreases Remaining(p, d)
  {
    assert Walk(p, d, 0) == p;
    if InBounds(p) && b[p.r][p.c] == v {
      var q := Walk(p, d, 1);
      RunFromSpec(b, v, q, d);
      forall m | 0 < m < RunFrom(b, v, p, d)
        ensures InBounds(Walk(p, d, m)) && CellAt(b, Walk(p, d, m)) == v
      {
        assert Walk(p, d, m) == Walk(q, d, m - 1);
      }
      assert Walk(p, d, RunFrom(b, v, p, d)) == Walk(q, d, RunFrom(b, v, q, d));
    }
  }

  /** One step of a run: an on-board v cell extends the run that follows it by one. */
  lemma RunStep(b: Board, v: int, p: Pos, d: Dir, start: Pos, m: int)
    requires WellFormed(b) && IsDir(d) && InBounds(p) && CellAt(b, p) == v
    requires p == Walk(start, d, m)
    ensures RunFrom(b, v, p, d) == 1 + RunFrom(b, v, Pos(p.r + d.dr, p.c + d.dc), d)
    ensures Pos(p.r + d.dr, p.c + d.dc) == Walk(start, d, m + 1)
  {
    assert Walk(p, d, 1) == Pos(p.r + d.dr, p.c + d.dc);
  }

  /** Number of opponent discs lined up next to mv in direction d. */
  function RunLength(b: Board, player: int, mv: Pos, d: Dir): nat
    requires WellFormed(b)
  {
    RunFrom(b, GetOpponent(player), Walk(mv, d, 1), d)
  }

  /** Direction d closes a sandwich from mv: one or more opponent discs, then, on the board, a player disc. */
  predicate Brackets(b: Board, player: int, mv: Pos, d: Dir)
    requires WellFormed(b)
  {
    var n := RunLength(b, player, mv, d);
    n >= 1 && InBounds(Walk(mv, d, n + 1)) && CellAt(b, Walk(mv, d, n + 1)) == player
  }

  /** The sandwich rule: the target cell is empty and some direction closes a sandwich. */
  predicate IsLegal(b: Board, player: int, mv: Pos)
    requires WellFormed(b) && InBounds(mv)
  {
    CellAt(b, mv) == 0 && exists d :: d in Directions && Brackets(b, player, mv, d)
  }

  /** Reference statement of a sandwich of exactly k opponent discs from mv in direction d. */
  ghost predicate Sandwiched(b: Board, player: int, mv: Pos, d: Dir, k: int)
    requires WellFormed(b)
  {
    k >= 1 &&
    (forall m :: 1 <= m <= k ==>
       InBounds(Walk(mv, d, m)) && CellAt(b, Walk(mv, d, m)) == GetOpponent(player)) &&
    InBounds(Walk(mv, d, k + 1)) && CellAt(b, Walk(mv, d, k + 1)) == player
  }

  /** A sandwich can only have the length of the opponent run. */
  lemma SandwichIsRun(b: Board, player: int, mv: Pos, d: Dir, k: int)
    requires WellFormed(b) && IsDir(d) && Sandwiched(b, player, mv, d, k)
    ensures k == RunLength(b, player, mv, d)
  {
    var q := Walk(mv, d, 1);
    var n := RunLength(b, player, mv, d);
    RunFromSpec(b, GetOpponent(player), q, d);
    assert Walk(q, d, n) == Walk(mv, d, n + 1);
    assert Walk(q, d, k) == Walk(mv, d, k + 1);
  }

  /** The computed test agrees with the reference statement, in both directions. */
  lemma BracketsIffSandwiched(b: Board, player: int, mv: Pos, d: Dir)
    requires WellFormed(b) && IsDir(d)
    ensures Brackets(b, player, mv, d) <==> exists k :: Sandwiched(b, player, mv, d, k)
  {
    var q := Walk(mv, d, 1);
    var n := RunLength(b, player, mv, d);
    if Brackets(b, player, mv, d) {
      RunFromSpec(b, GetOpponent(player), q, d);
      forall m | 1 <= m <= n
        ensures InBounds(Walk(mv, d, m)) && CellAt(b, Walk(mv, d, m)) == GetOpponent(player)
      {
        assert Walk(mv, d, m) == Walk(q, d, m - 1);
      }
      assert Sandwiched(b, player, mv, d, n);
    }
    forall k | Sandwiched(b, player, mv, d, k) ensures Brackets(b, player, mv, d) {
      SandwichIsRun(b, player, mv, d, k);
    }
  }

  /** isValidMove holds exactly when the cell is empty and some direction holds a sandwich. */
  lemma LegalIffSandwich(b: Board, player: int, mv: Pos)
    requires WellFormed(b) && InBounds(mv)
    ensures IsLegal(b, player, mv) <==>
      CellAt(b, mv) == 0 && exists d, k :: d in Directions && Sandwiched(b, player, mv, d, k)
  {
    DirectionsAreCompass();
    forall d | d in Directions
      ensures Brackets(b, player, mv, d) <==> exists k :: Sandwiched(b, player, mv, d, k)
    {
      BracketsIffSandwiched(b, player, mv, d);
    }
  }

  /** The first n cells after mv in direction d, nearest first. */
  function Steps(mv: Pos, d: Dir, n: nat): (cells: seq<Pos>)
    ensures |cells| == n
  {
    seq(n, t => Walk(mv, d, t + 1))
  }

  /** One more step appends the next cell. */
  lemma StepsSnoc(mv: Pos, d: Dir, n: nat)
    ensures Steps(mv, d, n + 1) == Steps(mv, d, n) + [Walk(mv, d, n + 1)]
  {
    var longer := Steps(mv, d, n + 1);
    var extended := Steps(mv, d, n) + [Walk(mv, d, n + 1)];
    assert forall t :: 0 <= t < |longer| ==> longer[t] == extended[t];
  }

  /** The cells of the run of v discs next to mv in direction d, nearest first. */
  function RunOf(b: Board, v: int, mv: Pos, d: Dir): seq<Pos>
    requires WellFormed(b)
  {
    Steps(mv, d, RunFrom(b, v, Walk(mv, d, 1), d))
  }

  /** The cells the scan in direction d collects (the source's piecesToFlip). */
  function Run(b: Board, player: int, mv: Pos, d: Dir): seq<Pos>
    requires WellFormed(b)
  {
    RunOf(b, GetOpponent(player), mv, d)
  }

  /** Every collected cell is an on-board opponent disc other than the move cell. */
  lemma RunCells(b: Board, player: int, mv: Pos, d: Dir, pos: Pos)
    requires WellFormed(b) && IsDir(d) && pos in Run(b, player, mv, d)
    ensures InBounds(pos) && pos != mv && CellAt(b, pos) == GetOpponent(player)
  {
    var q := Walk(mv, d, 1);
    var opponent := GetOpponent(player);
    var run := Run(b, player, mv, d);
    assert run == Steps(mv, d, RunFrom(b, opponent, q, d));
    var t :| 0 <= t < |run| && run[t] == pos;
    assert run[t] == Walk(mv, d, t + 1);
    assert pos == Walk(q, d, t);
    RunFromSpec(b, opponent, q, d);
    assert InBounds(Walk(q, d, t)) && CellAt(b, Walk(q, d, t)) == opponent;
  }

  /** pos is flipped by one of the directions dirs: it lies on the run of a closed direction. */
  predicate CapturedIn(b: Board, player: int, mv: Pos, dirs: seq<Dir>, pos: Pos)
    requires WellFormed(b)
  {
    exists d :: d in dirs && Brackets(b, player, mv, d) && pos in Run(b, player, mv, d)
  }

  /** pos is flipped when mv is played. */
  predicate Captured(b: Board, player: int, mv: Pos, pos: Pos)
    requires WellFormed(b)
  {
    CapturedIn(b, player, mv, Directions, pos)
  }

  /** The board after player places a disc on mv and every sandwiched run is flipped. */
  function Simulated(b: Board, mv: Pos, player: int): (r: Board)
    requires WellFormed(b) && InBounds(mv)
    ensures WellFormed(r)
  {
    seq(Size, i requires 0 <= i < Size =>
      seq(Size, j requires 0 <= j < Size =>
        if Pos(i, j) == mv || Captured(b, player, mv, Pos(i, j)) then player else b[i][j]))
  }

  /** The frame of a move: the move cell becomes player, captured cells are opponent discs
      turned to player, and every other cell, empty or not, keeps its value. */
  lemma SimulatedEffect(b: Board, mv: Pos, player: int)
    requires WellFormed(b) && InBounds(mv)
    ensures WellFormed(Simulated(b, mv, player))
    ensures CellAt(Simulated(b, mv, player), mv) == player
    ensures forall pos :: InBounds(pos) && pos != mv && Captured(b, player, mv, pos) ==>
              CellAt(b, pos) == GetOpponent(player) && CellAt(Simulated(b, mv, player), pos) == player
    ensures forall pos :: InBounds(pos) && pos != mv && !Captured(b, player, mv, pos) ==>
              CellAt(Simulated(b, mv, player), pos) == CellAt(b, pos)
  {
    DirectionsAreCompass();
    forall pos | InBounds(pos) && pos != mv && Captured(b, player, mv, pos)
      ensures CellAt(b, pos) == GetOpponent(player)
    {
      var d :| d in Directions && Brackets(b, player, mv, d) && pos in Run(b, player, mv, d);
      RunCells(b, player, mv, d, pos);
    }
  }

  /** A move is legal exactly when its cell is empty and playing it changes some other cell. */
  lemma LegalIffFlips(b: Board, player: int, mv: Pos)
    requires WellFormed(b) && InBounds(mv)
    ensures IsLegal(b, player, mv) <==>
      CellAt(b, mv) == 0 &&
      exists pos :: InBounds(pos) && pos != mv && CellAt(Simulated(b, mv, player), pos) != CellAt(b, pos)
  {
    var r := Simulated(b, mv, player);
    SimulatedEffect(b, mv, player);
    if IsLegal(b, player, mv) {
      var d :| d in Directions && Brackets(b, player, mv, d);
      DirectionsAreCompass();
      var pos := Run(b, player, mv, d)[0];
      RunCells(b, player, mv, d, pos);
      assert Captured(b, player, mv, pos);
      assert CellAt(r, pos) != CellAt(b, pos);
    }
    if CellAt(b, mv) == 0 && exists pos :: InBounds(pos) && pos != mv && CellAt(r, pos) != CellAt(b, pos) {
      var pos :| InBounds(pos) && pos != mv && CellAt(r, pos) != CellAt(b, pos);
      assert Captured(b, player, mv, pos);
    }
  }

  /** Cell (i, j) is on the board and at most one step from mv in each coordinate. */
  predicate Adjacent(mv: Pos, i: int, j: int)
  {
    0 <= i < Size && 0 <= j < Size && mv.r - 1 <= i <= mv.r + 1 && mv.c - 1 <= j <= mv.c + 1
  }

  /** A move with no opponent disc among its on-board neighbours is not legal. */
  lemma NoOpponentAdjacent(b: Board, player: int, mv: Pos)
    requires WellFormed(b) && InBounds(mv)
    requires forall i, j :: Adjacent(mv, i, j) ==> b[i][j] != GetOpponent(player)
    ensures !IsLegal(b, player, mv)
  {
    DirectionsAreCompass();
    forall d | d in Directions ensures RunLength(b, player, mv, d) == 0 {
      var q := Walk(mv, d, 1);
      assert q == Pos(mv.r + d.dr, mv.c + d.dc);
      if InBounds(q) {
        assert Adjacent(mv, q.r, q.c);
      }
    }
  }

  /** A move whose only opponent neighbour lies in direction e, and e does not bracket, is not legal. */
  lemma OneOpponentNeighbour(b: Board, player: int, mv: Pos, e: Dir)
    requires WellFormed(b) && InBounds(mv) && e in Directions && !Brackets(b, player, mv, e)
    requires forall i, j :: Adjacent(mv, i, j) && Pos(i, j) != Walk(mv, e, 1) ==> b[i][j] != GetOpponent(player)
    ensures !IsLegal(b, player, mv)
  {
    DirectionsAreCompass();
    assert Walk(mv, e, 1) == Pos(mv.r + e.dr, mv.c + e.dc);
    forall d | d in Directions && d != e ensures RunLength(b, player, mv, d) == 0 {
      var q := Walk(mv, d, 1);
      assert q == Pos(mv.r + d.dr, mv.c + d.dc);
      if InBounds(q) {
        assert Adjacent(mv, q.r, q.c) && q != Walk(mv, e, 1);
      }
    }
  }

  /** A run of exactly n opponent discs after mv that no player disc closes does not bracket. */
  lemma UnclosedRun(b: Board, player: int, mv: Pos, d: Dir, n: nat)
    requires WellFormed(b) && d in Directions
    requires forall m :: 1 <= m <= n ==> InBounds(Walk(mv, d, m)) && CellAt(b, Walk(mv, d, m)) == GetOpponent(player)
    requires !(InBounds(Walk(mv, d, n + 1)) && CellAt(b, Walk(mv, d, n + 1)) == GetOpponent(player))
    requires n == 0 || !(InBounds(Walk(mv, d, n + 1)) && CellAt(b, Walk(mv, d, n + 1)) == player)
    ensures RunLength(b, player, mv, d) == n && !Brackets(b, player, mv, d)
  {
    var q := Walk(mv, d, 1);
    var len := RunLength(b, player, mv, d);
    RunFromSpec(b, GetOpponent(player), q, d);
    assert Walk(q, d, len) == Walk(mv, d, len + 1);
    assert Walk(q, d, n) == Walk(mv, d, n + 1);
    assert len <= n;
  }

  /** A move whose only opponent neighbour starts, in direction e, a run that no player disc closes is not legal. */
  lemma LoneRunNotLegal(b: Board, player: int, mv: Pos, e: Dir, n: nat)
    requires WellFormed(b) && InBounds(mv) && e in Directions
    requires forall m :: 1 <= m <= n ==> InBounds(Walk(mv, e, m)) && CellAt(b, Walk(mv, e, m)) == GetOpponent(player)
    requires !(InBounds(Walk(mv, e, n + 1)) && CellAt(b, Walk(mv, e, n + 1)) == GetOpponent(player))
    requires n == 0 || !(InBounds(Walk(mv, e, n + 1)) && CellAt(b, Walk(mv, e, n + 1)) == player)
    requires forall i, j :: Adjacent(mv, i, j) && Pos(i, j) != Walk(mv, e, 1) ==> b[i][j] != GetOpponent(player)
    ensures !IsLegal(b, player, mv)
  {
    UnclosedRun(b, player, mv, e, n);
    OneOpponentNeighbour(b, player, mv, e);
  }

  /** One opponent disc next to an empty mv, closed by a player disc, makes mv legal. */
  lemma ClosedByOne(b: Board, player: int, mv: Pos, d: Dir)
    requires WellFormed(b) && InBounds(mv) && d in Directions && CellAt(b, mv) == 0
    requires InBounds(Walk(mv, d, 1)) && CellAt(b, Walk(mv, d, 1)) == GetOpponent(player)
    requires InBounds(Walk(mv, d, 2)) && CellAt(b, Walk(mv, d, 2)) == player
    ensures IsLegal(b, player, mv)
  {
    var q := Walk(mv, d, 1);
    assert Walk(q, d, 1) == Walk(mv, d, 2);
    assert RunFrom(b, GetOpponent(player), Walk(q, d, 1), d) == 0;
    assert Brackets(b, player, mv, d);
  }

  /** The while loop of isValidMove for one direction d: walks from (x, y) over opponent
      discs, remembering whether one has been passed, and reports whether a player disc
      closes the run (the source returns true from isValidMove at that point). */
  method ScanDirection(b: Board, player: int, x: int, y: int, d: Dir) returns (closed: bool)
    requires WellFormed(b) && IsDir(d)
    ensures closed == Brackets(b, player, Pos(x, y), d)
  {
    var opponent := GetOpponent(player);
    var i, j := x + d.dr, y + d.dc;
    var opponentFound := false;
    ghost var n := 0;
    while i >= 0 && j >= 0 && i < Size && j < Size
      invariant Pos(i, j) == Walk(Pos(x, y), d, n + 1)
      invariant opponentFound <==> n > 0
      invariant RunLength(b, player, Pos(x, y), d) == n + RunFrom(b, opponent, Pos(i, j), d)
      decreases Remaining(Pos(i, j), d)
    {
      if b[i][j] == opponent {
        RunStep(b, opponent, Pos(i, j), d, Pos(x, y), n + 1);
        opponentFound := true;
      } else if b[i][j] == player {
        assert RunLength(b, player, Pos(x, y), d) == n;
        return opponentFound;
      } else {
        assert RunLength(b, player, Pos(x, y), d) == n;
        return false;
      }
      i, j := i + d.dr, j + d.dc;
      n := n + 1;
    }
    return false;
  }

  /** isValidMove: the cell must be empty, and then the directions are scanned in table
      order until one closes a sandwich. */
  method IsValidMove(b: Board, player: int, x: int, y: int) returns (valid: bool)
    requires WellFormed(b) && InBounds(Pos(x, y))
    ensures valid == IsLegal(b, player, Pos(x, y))
  {
    if b[x][y] != 0 {
      return false;
    }
    for k := 0 to |Directions|
      invariant forall l :: 0 <= l < k ==> !Brackets(b, player, Pos(x, y), Directions[l])
    {
      var d := Directions[k];
      assert IsDir(d) by { DirectionsAreCompass(); assert d in Directions; }
      var closed := ScanDirection(b, player, x, y, d);
      if closed {
        return true;
      }
    }
    return false;
  }

  /** The board after the disc is placed and the closed runs of the first k directions are flipped. */
  function FlippedUpTo(b: Board, mv: Pos, player: int, k: int): (r: Board)
    requires WellFormed(b) && InBounds(mv) && 0 <= k <= |Directions|
    ensures WellFormed(r)
  {
    seq(Size, i requires 0 <= i < Size =>
      seq(Size, j requires 0 <= j < Size =>
        if Pos(i, j) == mv || CapturedIn(b, player, mv, Directions[..k], Pos(i, j)) then player else b[i][j]))
  }

  /** board with every cell of cells set to v, in order. */
  function Paint(board: Board, cells: seq<Pos>, v: int): (r: Board)
    requires WellFormed(board) && forall t :: 0 <= t < |cells| ==> InBounds(cells[t])
    ensures WellFormed(r)
  {
    if cells == [] then board
    else
      var rest := Paint(board, cells[..|cells| - 1], v);
      var c := cells[|cells| - 1];
      assert InBounds(c);
      rest[c.r := rest[c.r][c.c := v]]
  }

  /** Painting sets exactly the listed cells. */
  lemma {:induction false} PaintCells(board: Board, cells: seq<Pos>, v: int)
    requires WellFormed(board) && forall t :: 0 <= t < |cells| ==> InBounds(cells[t])
    ensures forall i, j :: 0 <= i < Size && 0 <= j < Size ==>
      Paint(board, cells, v)[i][j] == if Pos(i, j) in cells then v else board[i][j]
    decreases |cells|
  {
    if cells != [] {
      var front := cells[..|cells| - 1];
      PaintCells(board, front, v);
      assert cells == front + [cells[|cells| - 1]];
    }
  }

  /** Before any direction is scanned only the move cell differs. */
  lemma FlippedUpToStart(b: Board, mv: Pos, player: int)
    requires WellFormed(b) && InBounds(mv)
    ensures FlippedUpTo(b, mv, player, 0) == b[mv.r := b[mv.r][mv.c := player]]
  {
    var r := FlippedUpTo(b, mv, player, 0);
    forall i | 0 <= i < Size ensures r[i] == b[mv.r := b[mv.r][mv.c := player]][i] {
    }
  }

  /** Adding a direction to the scanned ones captures the cells of its run when it closes. */
  lemma CapturedInSnoc(b: Board, player: int, mv: Pos, dirs: seq<Dir>, d: Dir, pos: Pos)
    requires WellFormed(b)
    ensures CapturedIn(b, player, mv, dirs + [d], pos) <==>
      CapturedIn(b, player, mv, dirs, pos) || (Brackets(b, player, mv, d) && pos in Run(b, player, mv, d))
  {
    if CapturedIn(b, player, mv, dirs + [d], pos) {
      var e :| e in dirs + [d] && Brackets(b, player, mv, e) && pos in Run(b, player, mv, e);
      if e != d {
        assert e in dirs;
      }
    }
    if CapturedIn(b, player, mv, dirs, pos) {
      var e :| e in dirs && Brackets(b, player, mv, e) && pos in Run(b, player, mv, e);
      assert e in dirs + [d];
    }
  }

  /** Scanning direction k flips its run when it closes and changes nothing otherwise. */
  lemma FlippedUpToStep(b: Board, mv: Pos, player: int, k: int)
    requires WellFormed(b) && InBounds(mv) && 0 <= k < |Directions|
    requires forall t :: 0 <= t < |Run(b, player, mv, Directions[k])| ==> InBounds(Run(b, player, mv, Directions[k])[t])
    ensures Brackets(b, player, mv, Directions[k]) ==>
      Paint(FlippedUpTo(b, mv, player, k), Run(b, player, mv, Directions[k]), player) == FlippedUpTo(b, mv, player, k + 1)
    ensures !Brackets(b, player, mv, Directions[k]) ==>
      FlippedUpTo(b, mv, player, k) == FlippedUpTo(b, mv, player, k + 1)
  {
    var d := Directions[k];
    var run := Run(b, player, mv, d);
    assert Directions[..k + 1] == Directions[..k] + [d];
    var before := FlippedUpTo(b, mv, player, k);
    var after := FlippedUpTo(b, mv, player, k + 1);
    var next := if Brackets(b, player, mv, d) then Paint(before, run, player) else before;
    PaintCells(before, run, player);
    forall i, j | 0 <= i < Size && 0 <= j < Size ensures next[i][j] == after[i][j] {
      CapturedInSnoc(b, player, mv, Directions[..k], d, Pos(i, j));
    }
    forall i | 0 <= i < Size ensures next[i] == after[i] {
    }
  }

  /** Once all eight directions are scanned the result is the simulated board. */
  lemma FlippedUpToAll(b: Board, mv: Pos, player: int)
    requires WellFormed(b) && InBounds(mv)
    ensures FlippedUpTo(b, mv, player, |Directions|) == Simulated(b, mv, player)
  {
    assert Directions[..|Directions|] == Directions;
    var r := FlippedUpTo(b, mv, player, |Directions|);
    forall i | 0 <= i < Size ensures r[i] == Simulated(b, mv, player)[i] {
    }
  }

  /** The while loop of simulateMove: walks from mv in direction d over the opponent
      discs of the original board, collecting them, and stops on the first other cell. */
  method CollectRun(b: Board, mv: Pos, d: Dir, opponent: int) returns (piecesToFlip: seq<Pos>, i: int, j: int)
    requires WellFormed(b) && IsDir(d)
    ensures piecesToFlip == RunOf(b, opponent, mv, d)
    ensures Pos(i, j) == Walk(mv, d, |piecesToFlip| + 1)
    ensures forall t :: 0 <= t < |piecesToFlip| ==> InBounds(piecesToFlip[t])
  {
    i, j := mv.r + d.dr, mv.c + d.dc;
    piecesToFlip := [];
    assert Walk(mv, d, 1) == Pos(i, j);
    while i >= 0 && i < Size && j >= 0 && j < Size && b[i][j] == opponent
      invariant Pos(i, j) == Walk(mv, d, |piecesToFlip| + 1)
      invariant piecesToFlip == Steps(mv, d, |piecesToFlip|)
      invariant forall t :: 0 <= t < |piecesToFlip| ==> InBounds(piecesToFlip[t])
      invariant RunFrom(b, opponent, Walk(mv, d, 1), d) == |piecesToFlip| + RunFrom(b, opponent, Pos(i, j), d)
      decreases Remaining(Pos(i, j), d)
    {
      RunStep(b, opponent, Pos(i, j), d, mv, |piecesToFlip| + 1);
      StepsSnoc(mv, d, |piecesToFlip|);
      piecesToFlip := piecesToFlip + [Pos(i, j)];
      i, j := i + d.dr, j + d.dc;
    }
    assert RunFrom(b, opponent, Pos(i, j), d) == 0;
  }

  /** The inner for loop of simulateMove: writes player into every collected cell. */
  method FlipPieces(board: Board, piecesToFlip: seq<Pos>, player: int) returns (clonedBoard: Board)
    requires WellFormed(board) && forall t :: 0 <= t < |piecesToFlip| ==> InBounds(piecesToFlip[t])
    ensures clonedBoard == Paint(board, piecesToFlip, player)
  {
    clonedBoard := board;
    for t := 0 to |piecesToFlip|
      invariant clonedBoard == Paint(board, piecesToFlip[..t], player)
    {
      var pieces := piecesToFlip[t];
      clonedBoard := clonedBoard[pieces.r := clonedBoard[pieces.r][pieces.c := player]];
      assert piecesToFlip[..t + 1][..t] == piecesToFlip[..t];
    }
    assert piecesToFlip[..|piecesToFlip|] == piecesToFlip;
  }

  /** simulateMove: copies the board, places the disc, and for each direction collects the
      opponent discs read from the original board, flipping them when a player disc closes the run. */
  method SimulateMove(b: Board, mv: Pos, player: int) returns (clonedBoard: Board)
    requires WellFormed(b) && InBounds(mv)
    ensures clonedBoard == Simulated(b, mv, player)
  {
    clonedBoard := b;
    var opponent := GetOpponent(player);
    clonedBoard := clonedBoard[mv.r := clonedBoard[mv.r][mv.c := player]];
    FlippedUpToStart(b, mv, player);
    for k := 0 to |Directions|
      invariant clonedBoard == FlippedUpTo(b, mv, player, k)
    {
      var d := Directions[k];
      assert IsDir(d) by { DirectionsAreCompass(); assert d in Directions; }
      var piecesToFlip, i, j := CollectRun(b, mv, d, opponent);
      FlippedUpToStep(b, mv, player, k);
      if i >= 0 && i < Size && j >= 0 && j < Size && b[i][j] == player {
        clonedBoard := FlipPieces(clonedBoard, piecesToFlip, player);
      } else {
        assert !Brackets(b, player, mv, d);
      }
    }
    FlippedUpToAll(b, mv, player);
  }
}
