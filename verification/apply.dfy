/** Move application of CheckersData on a board value: the single-step
    makeMove(fromRow, fromCol, toRow, toCol) and the multi-step
    makeMove(move). */
module Apply {
  import opened Board

  function Abs(x: int): int {
    if x < 0 then -x else x
  }

  /** Math.abs of both deltas is 2: the step is a jump. */
  predicate IsJumpGeometry(from: Square, to: Square) {
    Abs(from.row - to.row) == 2 && Abs(from.col - to.col) == 2
  }

  /** The square between the two ends of a jump. */
  function Mid(from: Square, to: Square): Square {
    Square((from.row + to.row) / 2, (from.col + to.col) / 2)
  }

  /** A man that stops on the far row becomes a king: RED on row 0, BLACK on
      row SIZE - 1; every other content is kept. */
  function Promote(piece: int, toRow: int): (p: int)
    ensures p != piece <==> (toRow == 0 && piece == RED) || (toRow == SIZE - 1 && piece == BLACK)
    ensures SideOf(p) == SideOf(piece)
  {
    if toRow == 0 && piece == RED then RED_KING
    else if toRow == SIZE - 1 && piece == BLACK then BLACK_KING
    else piece
  }

  /** One assignment board[s.row][s.col] = v. */
  function Set(g: Grid, s: Square, v: int): (g': Grid)
    requires OnBoard(s)
    ensures forall r, c :: 0 <= r < SIZE && 0 <= c < SIZE ==>
      g'[r][c] == if Square(r, c) == s then v else g[r][c]
  {
    g[s.row := g[s.row][s.col := v]]
  }

  /** The single-step makeMove: the destination receives the content of the
      from square, promoted when it is a man stopping on the far row; the from
      square becomes EMPTY; the middle square of a jump becomes EMPTY; nothing
      else changes. (When from and to coincide the square ends EMPTY.) */
  function ApplyStep(g: Grid, from: Square, to: Square): (g': Grid)
    requires OnBoard(from) && OnBoard(to)
    ensures At(g', from) == EMPTY
    ensures from != to ==> At(g', to) == Promote(At(g, from), to.row)
    ensures IsJumpGeometry(from, to) ==> OnBoard(Mid(from, to)) && At(g', Mid(from, to)) == EMPTY
    ensures forall r, c ::
      (0 <= r < SIZE && 0 <= c < SIZE && Square(r, c) != from && Square(r, c) != to &&
       !(IsJumpGeometry(from, to) && Square(r, c) == Mid(from, to)))
      ==> g'[r][c] == g[r][c]
  {
    var moved := Set(g, to, At(g, from));
    var vacated := Set(moved, from, EMPTY);
    var captured := if IsJumpGeometry(from, to) then Set(vacated, Mid(from, to), EMPTY) else vacated;
    if to.row == 0 && At(captured, to) == RED then Set(captured, to, RED_KING)
    else if to.row == SIZE - 1 && At(captured, to) == BLACK then Set(captured, to, BLACK_KING)
    else captured
  }

  predicate AllOnBoard(m: Move) {
    forall i :: 0 <= i < |m| ==> OnBoard(m[i])
  }

  /** The multi-step makeMove: the single steps m[0] -> m[1], ...,
      m[|m|-2] -> m[|m|-1], in this order. The squares of a move with at least
      two squares must be on the board (the Java code indexes the board with
      them); a shorter move is not looked at. */
  function ApplyMove(g: Grid, m: Move): Grid
    requires |m| < 2 || AllOnBoard(m)
    decreases |m|
  {
    if |m| < 2 then g
    else ApplyStep(ApplyMove(g, m[..|m| - 1]), m[|m| - 2], m[|m| - 1])
  }

  /** A move of fewer than two squares leaves the board as it is, and a move of
      two squares is one single step. */
  lemma ApplyShortMove(g: Grid, m: Move)
    requires |m| <= 2
    requires |m| < 2 || AllOnBoard(m)
    ensures |m| < 2 ==> ApplyMove(g, m) == g
    ensures |m| == 2 ==> ApplyMove(g, m) == ApplyStep(g, m[0], m[1])
  {
    if |m| == 2 {
      assert m[..1] == [m[0]];
    }
  }

  /** Applying a move is making its first step and then applying the rest of
      it from the square the first step reached. */
  lemma {:induction false} ApplyMoveFirstStep(g: Grid, m: Move)
    requires |m| >= 2 && AllOnBoard(m)
    ensures ApplyMove(g, m) == ApplyMove(ApplyStep(g, m[0], m[1]), m[1..])
    decreases |m|
  {
    var n := |m|;
    if n > 2 {
      var init := m[..n - 1];
      ApplyMoveFirstStep(g, init);
      assert init[1..] == m[1..][..n - 2];
      assert init[0] == m[0] && init[1] == m[1];
    }
  }

  /** The squares a move can change: its own squares and the middle squares of
      its jumps. */
  predicate Touches(m: Move, s: Square) {
    s in m || exists i :: 0 <= i < |m| - 1 && IsJumpGeometry(m[i], m[i + 1]) && s == Mid(m[i], m[i + 1])
  }

  /** Every square a move does not touch keeps its content. */
  lemma {:induction false} ApplyMoveFrame(g: Grid, m: Move, s: Square)
    requires |m| < 2 || AllOnBoard(m)
    requires OnBoard(s) && !Touches(m, s)
    ensures At(ApplyMove(g, m), s) == At(g, s)
    decreases |m|
  {
    var n := |m|;
    if n >= 2 {
      var init := m[..n - 1];
      assert !Touches(init, s) by {
        assert forall x :: x in init ==> x in m;
      }
      ApplyMoveFrame(g, init, s);
      assert s != m[n - 2] && s != m[n - 1];
    }
  }

  /** A single step between squares with row % 2 == col % 2 keeps every piece
      on such a square. */
  lemma StepKeepsDark(g: Grid, from: Square, to: Square)
    requires DarkOnly(g)
    requires OnBoard(from) && OnBoard(to) && to.row % 2 == to.col % 2
    ensures DarkOnly(ApplyStep(g, from, to))
  {
  }

  /** A move whose squares all satisfy row % 2 == col % 2 keeps every piece on
      such a square. */
  lemma {:induction false} MoveKeepsDark(g: Grid, m: Move)
    requires DarkOnly(g)
    requires AllOnBoard(m) && forall i :: 0 <= i < |m| ==> m[i].row % 2 == m[i].col % 2
    ensures DarkOnly(ApplyMove(g, m))
    decreases |m|
  {
    var n := |m|;
    if n >= 2 {
      var init := m[..n - 1];
      forall i | 0 <= i < |init|
        ensures OnBoard(init[i]) && init[i].row % 2 == init[i].col % 2
      {
        assert init[i] == m[i];
      }
      MoveKeepsDark(g, init);
      assert OnBoard(m[n - 1]) && m[n - 1].row % 2 == m[n - 1].col % 2;
      StepKeepsDark(ApplyMove(g, init), m[n - 2], m[n - 1]);
    }
  }
}
