/** getPossibleMoves: the legal moves of a player, in row-major order. */
module MoveGenerator {
  import opened BoardModel

  /** p comes strictly before q in row-major order. */
  predicate Before(p: Pos, q: Pos)
  {
    p.r < q.r || (p.r == q.r && p.c < q.c)
  }

  /** The cells (row, 0) .. (row, col - 1) that pass keep, in column order. */
  function RowScan(keep: Pos -> bool, row: int, col: nat): seq<Pos>
    decreases col
  {
    if col == 0 then []
    else
      RowScan(keep, row, col - 1) + (if keep(Pos(row, col - 1)) then [Pos(row, col - 1)] else [])
  }

  /** The cells of rows 0 .. rows - 1 and columns 0 .. cols - 1 that pass keep, in row-major order. */
  function Scan(keep: Pos -> bool, rows: nat, cols: nat): seq<Pos>
    decreases rows
  {
    if rows == 0 then [] else Scan(keep, rows - 1, cols) + RowScan(keep, rows - 1, cols)
  }

  /** A cell is in a row scan exactly when it is a passing cell of the row before col. */
  lemma {:induction false} RowScanHas(keep: Pos -> bool, row: int, col: nat, p: Pos)
    ensures p in RowScan(keep, row, col) <==> p.r == row && 0 <= p.c < col && keep(p)
    decreases col
  {
    if col > 0 {
      RowScanHas(keep, row, col - 1, p);
      var front := RowScan(keep, row, col - 1);
      var here := if keep(Pos(row, col - 1)) then [Pos(row, col - 1)] else [];
      assert RowScan(keep, row, col) == front + here;
      assert p in front + here <==> p in front || p in here;
    }
  }

  /** A row scan lists its cells in increasing column order. */
  lemma {:induction false} RowScanOrdered(keep: Pos -> bool, row: int, col: nat)
    ensures forall s, t :: 0 <= s < t < |RowScan(keep, row, col)| ==>
      RowScan(keep, row, col)[s].c < RowScan(keep, row, col)[t].c
    decreases col
  {
    if col > 0 {
      RowScanOrdered(keep, row, col - 1);
      var front := RowScan(keep, row, col - 1);
      var here := if keep(Pos(row, col - 1)) then [Pos(row, col - 1)] else [];
      var all := front + here;
      assert RowScan(keep, row, col) == all;
      forall s, t | 0 <= s < t < |all| ensures all[s].c < all[t].c {
        if t < |front| {
          assert all[s] == front[s] && all[t] == front[t];
        } else {
          RowScanHas(keep, row, col - 1, front[s]);
          assert all[s] == front[s] && front[s] in front;
          assert all[t] == Pos(row, col - 1);
        }
      }
    }
  }

  /** Appending a row, ordered by column, below rows already in row-major order keeps the order. */
  lemma AppendRowOrdered(front: seq<Pos>, last: seq<Pos>, row: int)
    requires forall t :: 0 <= t < |front| ==> front[t].r < row
    requires forall s, t :: 0 <= s < t < |front| ==> Before(front[s], front[t])
    requires forall t :: 0 <= t < |last| ==> last[t].r == row
    requires forall s, t :: 0 <= s < t < |last| ==> last[s].c < last[t].c
    ensures forall s, t :: 0 <= s < t < |front + last| ==> Before((front + last)[s], (front + last)[t])
  {
    var all := front + last;
    forall s, t | 0 <= s < t < |all| ensures Before(all[s], all[t]) {
      if t < |front| {
        assert all[s] == front[s] && all[t] == front[t];
      } else if s < |front| {
        assert all[s] == front[s] && all[t] == last[t - |front|];
      } else {
        assert all[s] == last[s - |front|] && all[t] == last[t - |front|];
      }
    }
  }

  /** A cell is in a board scan exactly when it is a passing cell of its first rows and columns. */
  lemma {:induction false} ScanHas(keep: Pos -> bool, rows: nat, cols: nat, p: Pos)
    ensures p in Scan(keep, rows, cols) <==> 0 <= p.r < rows && 0 <= p.c < cols && keep(p)
    decreases rows
  {
    if rows > 0 {
      var front := Scan(keep, rows - 1, cols);
      var last := RowScan(keep, rows - 1, cols);
      assert Scan(keep, rows, cols) == front + last;
      ScanHas(keep, rows - 1, cols, p);
      RowScanHas(keep, rows - 1, cols, p);
      calc {
        p in Scan(keep, rows, cols);
        p in front || p in last;
        (0 <= p.r < rows - 1 || p.r == rows - 1) && 0 <= p.c < cols && keep(p);
      }
    }
  }

  /** Every cell of a board scan lies in one of its rows. */
  lemma ScanRows(keep: Pos -> bool, rows: nat, cols: nat)
    ensures forall t :: 0 <= t < |Scan(keep, rows, cols)| ==> Scan(keep, rows, cols)[t].r < rows
  {
    var cells := Scan(keep, rows, cols);
    forall t | 0 <= t < |cells| ensures cells[t].r < rows {
      ScanHas(keep, rows, cols, cells[t]);
      assert cells[t] in cells;
    }
  }

  /** Every cell of a row scan lies in its row. */
  lemma RowScanRow(keep: Pos -> bool, row: int, col: nat)
    ensures forall t :: 0 <= t < |RowScan(keep, row, col)| ==> RowScan(keep, row, col)[t].r == row
  {
    var cells := RowScan(keep, row, col);
    forall t | 0 <= t < |cells| ensures cells[t].r == row {
      RowScanHas(keep, row, col, cells[t]);
      assert cells[t] in cells;
    }
  }

  /** A board scan lists its cells in row-major order. */
  lemma {:induction false} ScanOrdered(keep: Pos -> bool, rows: nat, cols: nat)
    ensures forall s, t :: 0 <= s < t < |Scan(keep, rows, cols)| ==> Before(Scan(keep, rows, cols)[s], Scan(keep, rows, cols)[t])
    decreases rows
  {
    if rows > 0 {
      ScanOrdered(keep, rows - 1, cols);
      ScanRows(keep, rows - 1, cols);
      RowScanRow(keep, rows - 1, cols);
      RowScanOrdered(keep, rows - 1, cols);
      AppendRowOrdered(Scan(keep, rows - 1, cols), RowScan(keep, rows - 1, cols), rows - 1);
    }
  }

  /** A cell of an 8 by 8 board that isValidMove accepts for player. */
  predicate LegalCell(b: Board, player: int, p: Pos)
  {
    WellFormed(b) && InBounds(p) && IsLegal(b, player, p)
  }

  /** The filter of the scan: the cells isValidMove accepts for player. */
  function LegalAt(b: Board, player: int): Pos -> bool
  {
    p => LegalCell(b, player, p)
  }

  /** The list getPossibleMoves builds: scanning rows 0..7 and, in each, columns 0..7. */
  function LegalMoves(b: Board, player: int): seq<Pos>
    requires WellFormed(b)
  {
    Scan(LegalAt(b, player), |b|, |b|)
  }

  /** Completeness and order of the generated list: exactly the legal cells, strictly
      increasing in row-major order, hence without duplicates. */
  lemma LegalMovesSpec(b: Board, player: int)
    requires WellFormed(b)
    ensures forall p :: p in LegalMoves(b, player) <==> InBounds(p) && IsLegal(b, player, p)
    ensures forall s, t :: 0 <= s < t < |LegalMoves(b, player)| ==>
      Before(LegalMoves(b, player)[s], LegalMoves(b, player)[t])
    ensures forall s, t :: 0 <= s < t < |LegalMoves(b, player)| ==>
      LegalMoves(b, player)[s] != LegalMoves(b, player)[t]
  {
    forall p | p in LegalMoves(b, player) || (InBounds(p) && IsLegal(b, player, p))
      ensures p in LegalMoves(b, player) <==> InBounds(p) && IsLegal(b, player, p)
    {
      ScanHas(LegalAt(b, player), |b|, |b|, p);
    }
    ScanOrdered(LegalAt(b, player), |b|, |b|);
  }

  /** Every generated move is a cell of the board. */
  lemma LegalMovesInBounds(b: Board, player: int)
    requires WellFormed(b)
    ensures forall j :: 0 <= j < |LegalMoves(b, player)| ==> InBounds(LegalMoves(b, player)[j])
  {
    ScanRows(LegalAt(b, player), |b|, |b|);
    forall j | 0 <= j < |LegalMoves(b, player)| ensures InBounds(LegalMoves(b, player)[j]) {
      ScanHas(LegalAt(b, player), |b|, |b|, LegalMoves(b, player)[j]);
    }
  }

  /** In two strictly ordered lists with the same cells and the same head, a cell after the
      head of one comes after the head of the other. */
  lemma TailMember(xs: seq<Pos>, ys: seq<Pos>, p: Pos)
    requires |xs| > 0 && |ys| > 0 && xs[0] == ys[0]
    requires forall s, t :: 0 <= s < t < |xs| ==> Before(xs[s], xs[t])
    requires forall p :: p in xs <==> p in ys
    requires p in xs[1..]
    ensures p in ys[1..]
  {
    var i :| 0 <= i < |xs[1..]| && xs[1..][i] == p;
    assert xs[i + 1] == p && Before(xs[0], p) && p in xs;
    var j :| 0 <= j < |ys| && ys[j] == p;
    assert j > 0;
    assert ys[1..][j - 1] == p;
  }

  /** Two lists in strictly increasing row-major order with the same cells are equal. */
  lemma {:induction false} OrderedListsEqual(xs: seq<Pos>, ys: seq<Pos>)
    requires forall s, t :: 0 <= s < t < |xs| ==> Before(xs[s], xs[t])
    requires forall s, t :: 0 <= s < t < |ys| ==> Before(ys[s], ys[t])
    requires forall p :: p in xs <==> p in ys
    ensures xs == ys
    decreases |xs|
  {
    assert |xs| > 0 ==> xs[0] in xs;
    assert |ys| > 0 ==> ys[0] in ys;
    if |xs| > 0 {
      var k :| 0 <= k < |ys| && ys[k] == xs[0];
      var l :| 0 <= l < |xs| && xs[l] == ys[0];
      assert k == 0;
      forall p ensures p in xs[1..] <==> p in ys[1..] {
        if p in xs[1..] {
          TailMember(xs, ys, p);
        }
        if p in ys[1..] {
          TailMember(ys, xs, p);
        }
      }
      OrderedListsEqual(xs[1..], ys[1..]);
      assert xs == [xs[0]] + xs[1..] && ys == [ys[0]] + ys[1..];
    }
  }

  /** The move list is the ordered list of the legal cells: any list of board cells in
      strictly increasing row-major order holding exactly the legal cells is it. */
  lemma MovesAre(b: Board, player: int, listed: seq<Pos>)
    requires WellFormed(b)
    requires forall s, t :: 0 <= s < t < |listed| ==> Before(listed[s], listed[t])
    requires forall p :: p in listed ==> InBounds(p)
    requires forall p :: InBounds(p) ==> (IsLegal(b, player, p) <==> p in listed)
    ensures LegalMoves(b, player) == listed
  {
    LegalMovesSpec(b, player);
    OrderedListsEqual(LegalMoves(b, player), listed);
  }

  /** One more row extends a board scan by that row's scan. */
  lemma ScanStep(keep: Pos -> bool, rows: nat, cols: nat)
    ensures Scan(keep, rows + 1, cols) == Scan(keep, rows, cols) + RowScan(keep, rows, cols)
  {
  }

  /** The inner loop of getPossibleMoves: row i scanned column by column, every cell
      isValidMove accepts pushed onto moves. */
  method ScanRow(b: Board, player: int, i: int, moves: seq<Pos>) returns (pushed: seq<Pos>)
    requires WellFormed(b) && 0 <= i < Size
    ensures pushed == moves + RowScan(LegalAt(b, player), i, |b|)
  {
    ghost var keep := LegalAt(b, player);
    pushed := moves;
    for j := 0 to Size
      invariant pushed == moves + RowScan(keep, i, j)
    {
      var valid := IsValidMove(b, player, i, j);
      ghost var found := if valid then [Pos(i, j)] else [];
      assert RowScan(keep, i, j + 1) == RowScan(keep, i, j) + found;
      if valid {
        pushed := pushed + [Pos(i, j)];
      }
      assert pushed == moves + (RowScan(keep, i, j) + found);
    }
  }

  /** getPossibleMoves: the rows scanned from the top, each pushing the cells isValidMove accepts. */
  method GetPossibleMoves(b: Board, player: int) returns (moves: seq<Pos>)
    requires WellFormed(b)
    ensures moves == LegalMoves(b, player)
  {
    ghost var keep := LegalAt(b, player);
    ghost var width := |b|;
    moves := [];
    for i := 0 to Size
      invariant moves == Scan(keep, i, width)
    {
      moves := ScanRow(b, player, i, moves);
      ScanStep(keep, i, width);
    }
  }
}
