/** The CheckersData object itself: an 8x8 array of square codes that
    setUpGame and the two makeMove methods update in place, and the move
    generators that scan it. Each method is specified by the functions of
    Board, Apply and MoveGen applied to the array's current contents. */
module Engine {
  import opened Board
  import opened MoveGen
  import MoveGenFacts
  import Apply

  class CheckersData {
    /** board[r, c] is the content of row r, column c. */
    var board: array2<int>

    ghost predicate Valid()
      reads this
    {
      board.Length0 == SIZE && board.Length1 == SIZE
    }

    /** The contents of the array as a board value. */
    function Snapshot(): (g: Grid)
      reads this, board
      requires Valid()
      ensures forall r, c :: 0 <= r < SIZE && 0 <= c < SIZE ==> g[r][c] == board[r, c]
    {
      var a := board;
      seq(SIZE, r requires 0 <= r < SIZE reads a => seq(SIZE, c requires 0 <= c < SIZE reads a => a[r, c]))
    }

    /** A new object holds a fresh board in the start position. */
    constructor()
      ensures Valid() && fresh(board)
      ensures Snapshot() == InitialGrid()
    {
      board := new int[SIZE, SIZE];
      new;
      SetUpGame();
    }

    /** Writes the start position into every square of the board. */
    method SetUpGame()
      requires Valid()
      modifies board
      ensures Snapshot() == InitialGrid()
    {
      var r := 0;
      while r < board.Length0
        invariant 0 <= r <= SIZE
        invariant forall i, j :: 0 <= i < r && 0 <= j < SIZE ==> board[i, j] == InitialPiece(i, j)
      {
        var c := 0;
        while c < board.Length0
          invariant 0 <= c <= SIZE
          invariant forall i, j :: 0 <= i < r && 0 <= j < SIZE ==> board[i, j] == InitialPiece(i, j)
          invariant forall j :: 0 <= j < c ==> board[r, j] == InitialPiece(r, j)
        {
          if r % 2 == c % 2 {
            if r < 3 {
              board[r, c] := RED;
            } else if r > 4 {
              board[r, c] := BLACK;
            } else {
              board[r, c] := EMPTY;
            }
          } else {
            board[r, c] := EMPTY;
          }
          c := c + 1;
        }
        r := r + 1;
      }
      GridsEqual(Snapshot(), InitialGrid());
    }

    /** pieceAt: the content of a square of the board. */
    function PieceAt(row: int, col: int): (p: int)
      reads this, board
      requires Valid() && IsValidSquare(row, col)
      ensures p == At(Snapshot(), Square(row, col))
    {
      board[row, col]
    }

    /** The single-step makeMove, done in place: the array afterwards holds
        ApplyStep of what it held before. */
    method MakeStep(fromRow: int, fromCol: int, toRow: int, toCol: int)
      requires Valid() && IsValidSquare(fromRow, fromCol) && IsValidSquare(toRow, toCol)
      modifies board
      ensures Snapshot() == Apply.ApplyStep(old(Snapshot()), Square(fromRow, fromCol), Square(toRow, toCol))
    {
      ghost var from, to := Square(fromRow, fromCol), Square(toRow, toCol);
      ghost var g := Snapshot();
      Write(toRow, toCol, board[fromRow, fromCol]);
      ghost var moved := Apply.Set(g, to, At(g, from));
      assert Snapshot() == moved;
      Write(fromRow, fromCol, EMPTY);
      ghost var vacated := Snapshot();
      if Apply.Abs(fromRow - toRow) == 2 && Apply.Abs(fromCol - toCol) == 2 {
        Write((fromRow + toRow) / 2, (fromCol + toCol) / 2, EMPTY);
        assert Snapshot() == Apply.Set(vacated, Apply.Mid(from, to), EMPTY);
      }
      ghost var captured := Snapshot();
      assert board[toRow, toCol] == At(captured, to);
      if toRow == 0 && board[toRow, toCol] == RED {
        Write(toRow, toCol, RED_KING);
      } else if toRow == board.Length0 - 1 && board[toRow, toCol] == BLACK {
        Write(toRow, toCol, BLACK_KING);
      }
    }

    /** One assignment to a square of the array. */
    method Write(row: int, col: int, v: int)
      requires Valid() && IsValidSquare(row, col)
      modifies board
      ensures Snapshot() == Apply.Set(old(Snapshot()), Square(row, col), v)
    {
      ghost var g := Snapshot();
      board[row, col] := v;
      GridsEqual(Snapshot(), Apply.Set(g, Square(row, col), v));
    }

    /** The multi-step makeMove: the steps of the move, one after the other,
        on the array; afterwards it holds ApplyMove of what it held before. */
    method MakeMove(move: Move)
      requires Valid() && (|move| < 2 || Apply.AllOnBoard(move))
      modifies board
      ensures Snapshot() == Apply.ApplyMove(old(Snapshot()), move)
    {
      var l := |move|;
      var i := 0;
      while i < l - 1
        invariant 0 <= i && (l >= 1 ==> i <= l - 1)
        invariant l >= 1 ==> Snapshot() == Apply.ApplyMove(old(Snapshot()), move[..i + 1])
        invariant l == 0 ==> Snapshot() == old(Snapshot())
      {
        MakeStep(move[i].row, move[i].col, move[i + 1].row, move[i + 1].col);
        assert move[..i + 2][..i + 1] == move[..i + 1];
        i := i + 1;
      }
      if l >= 1 {
        assert move[..l] == move;
      }
    }

    /** isOpponent on the array. */
    function IsOpponent(player: int, row: int, col: int): (r: bool)
      reads this, board
      requires Valid()
      ensures r == Board.IsOpponent(Snapshot(), player, row, col)
    {
      if !IsValidSquare(row, col) then false
      else if player == RED || player == RED_KING then board[row, col] == BLACK || board[row, col] == BLACK_KING
      else board[row, col] == RED || board[row, col] == RED_KING
    }

    /** The direction arrays both generators build for `player`; None for
        an unknown player, for which they return null. */
    static method DirectionsFor(player: int) returns (ds: Option<seq<Dir>>)
      ensures ds.Some? <==> KnownPlayer(player)
      ensures ds.Some? ==> ds.value == Directions(player)
    {
      if player == RED {
        ds := Some([Dir(-1, -1), Dir(-1, 1)]);
      } else if player == BLACK {
        ds := Some([Dir(1, -1), Dir(1, 1)]);
      } else if player == RED_KING || player == BLACK_KING {
        ds := Some([Dir(-1, -1), Dir(-1, 1), Dir(1, -1), Dir(1, 1)]);
      } else {
        ds := None;
      }
    }

    /** getLegalRegularMovesFrom: the direction loop collects every free
        one-step move; the result is what RegularMovesFrom says. */
    method GetLegalRegularMovesFrom(player: int, row: int, col: int) returns (r: Option<seq<Move>>)
      requires Valid()
      ensures r == RegularMovesFrom(Snapshot(), player, row, col)
    {
      var dirs := DirectionsFor(player);
      if dirs.None? {
        return None;
      }
      var ds := dirs.value;
      var s := Square(row, col);
      var legal: seq<Move> := [];
      var i := 0;
      while i < |ds|
        invariant 0 <= i <= |ds|
        invariant legal == RegularAlong(Snapshot(), s, ds[..i])
      {
        var newRow := row + ds[i].dr;
        var newCol := col + ds[i].dc;
        if IsValidSquare(newRow, newCol) && board[newRow, newCol] == EMPTY {
          legal := legal + [[s, Square(newRow, newCol)]];
        }
        assert ds[..i + 1][..i] == ds[..i];
        i := i + 1;
      }
      assert ds[..|ds|] == ds;
      return Some(legal);
    }

    /** The inner loop of getLegalJumpsFrom: for each continuation, a copy of
        the jump s -> l extended by the continuation's second square is added
        to the list. */
    static method AddSpliced(legal: seq<Move>, s: Square, l: Square, further: seq<Move>) returns (legal': seq<Move>)
      requires forall f :: f in further ==> |f| >= 2
      ensures legal' == legal + Extend(s, l, further)
    {
      legal' := legal;
      var k := 0;
      while k < |further|
        invariant 0 <= k <= |further|
        invariant legal' == legal + Extend(s, l, further[..k])
      {
        assert further[k] in further;
        assert Extend(s, l, further[..k + 1]) == Extend(s, l, further[..k]) + [[s, l, further[k][1]]];
        legal' := legal' + [[s, l, further[k][1]]];
        k := k + 1;
      }
      assert further[..|further|] == further;
    }

    /** getLegalJumpsFrom with at most `fuel` nested calls: null for an
        unknown player, otherwise the direction loop over the player's
        directions; the result is what JumpsFrom says. */
    method GetLegalJumpsFrom(player: int, row: int, col: int, fuel: nat) returns (r: Search<seq<Move>>)
      requires Valid()
      ensures r == JumpsFrom(Snapshot(), player, row, col, fuel)
      decreases 3 * fuel
    {
      if fuel == 0 {
        return OutOfFuel;
      }
      var dirs := DirectionsFor(player);
      if dirs.None? {
        return Done([]);
      }
      MoveGenFacts.JumpsFromUnfold(Snapshot(), player, row, col, fuel);
      r := CollectJumps(player, Square(row, col), dirs.value, fuel - 1);
    }

    /** The direction loop of getLegalJumpsFrom: one turn per direction,
        stopping at the first overflow. */
    method CollectJumps(player: int, s: Square, ds: seq<Dir>, fuel: nat) returns (r: Search<seq<Move>>)
      requires Valid()
      ensures r == JumpsAlong(Snapshot(), player, s, ds, fuel)
      decreases 3 * fuel + 2
    {
      ghost var g := Snapshot();
      var legal: seq<Move> := [];
      var i := 0;
      assert ds[..0] == [];
      while i < |ds|
        invariant 0 <= i <= |ds|
        invariant JumpsAlong(g, player, s, ds[..i], fuel) == Done(legal)
      {
        MoveGenFacts.AlongTurn(g, player, s, ds, i, fuel, legal);
        var next := JumpTurn(player, s, ds[i], fuel, legal);
        assert Snapshot() == g && next == JumpsAlong(g, player, s, ds[..i + 1], fuel);
        if next.OutOfFuel? {
          MoveGenFacts.AlongOverflowPersists(g, player, s, ds, i + 1, fuel);
          return OutOfFuel;
        }
        legal := next.value;
        i := i + 1;
      }
      assert ds[..|ds|] == ds;
      return Done(legal);
    }

    /** The test of getLegalJumpsFrom for direction d: the landing square
        is on the board and empty, and the square jumped over holds an
        opponent. */
    function JumpOpen(player: int, s: Square, d: Dir): (b: bool)
      reads this, board
      requires Valid()
      ensures b == CanJump(Snapshot(), player, s, d)
    {
      var jumpRow, jumpCol := s.row + 2 * d.dr, s.col + 2 * d.dc;
      IsValidSquare(jumpRow, jumpCol) && board[jumpRow, jumpCol] == EMPTY && IsOpponent(player, s.row + d.dr, s.col + d.dc)
    }

    /** One turn of the direction loop of getLegalJumpsFrom, for direction d:
        when the landing square is on the board and empty and the
        square jumped over holds an opponent, the recursive call from the
        landing square, then either the single jump or one spliced move per
        continuation is added to `legal`. */
    method JumpTurn(player: int, s: Square, d: Dir, fuel: nat, legal: seq<Move>) returns (r: Search<seq<Move>>)
      requires Valid()
      ensures r == TryJump(Snapshot(), player, s, d, fuel, legal)
      decreases 3 * fuel + 1
    {
      ghost var g := Snapshot();
      if JumpOpen(player, s, d) {
        var l := Square(s.row + 2 * d.dr, s.col + 2 * d.dc);
        var further := GetLegalJumpsFrom(player, l.row, l.col, fuel);
        assert Snapshot() == g && l == Land(s, d) && further == JumpsFrom(g, player, l.row, l.col, fuel);
        if further.OutOfFuel? {
          return OutOfFuel;
        }
        var fs := further.value;
        if fs != [] {
          var spliced := AddSpliced(legal, s, l, fs);
          return Done(spliced);
        } else {
          return Done(legal + [[s, l]]);
        }
      } else {
        return Done(legal);
      }
    }

    /** getLegalMoves with at most `fuel` nested calls of getLegalJumpsFrom:
        null for an unknown player; the jumps when the first scan finds any;
        otherwise the moves of the second scan, or null when there are none.
        The result is what LegalMoves says. */
    method GetLegalMoves(player: int, fuel: nat) returns (r: Search<Option<seq<Move>>>)
      requires Valid()
      ensures r == LegalMoves(Snapshot(), player, fuel)
    {
      if player != RED && player != BLACK && player != RED_KING && player != BLACK_KING {
        return Done(None);
      }
      var jumps, jumpAvailable := FindAllJumps(player, fuel);
      if jumps.OutOfFuel? {
        return OutOfFuel;
      }
      if jumpAvailable {
        return Done(Some(jumps.value));
      }
      var legal := FindAllRegularMoves(player);
      if |legal| == 0 {
        return Done(None);
      } else {
        return Done(Some(legal));
      }
    }

    /** The first scan of getLegalMoves: the jumps of every origin square in
        row-major order; jumpAvailable records whether any was found. */
    method FindAllJumps(player: int, fuel: nat) returns (r: Search<seq<Move>>, jumpAvailable: bool)
      requires Valid()
      ensures r == ScanJumps(Snapshot(), player, SIZE * SIZE, fuel)
      ensures r.Done? ==> (jumpAvailable <==> r.value != [])
    {
      ghost var g := Snapshot();
      assert IsJumpsHere(s => JumpsHere(g, player, fuel, s), g, player, fuel);
      // The loops know the per-square search only by its defining property.
      ghost var here: Square -> Search<seq<Move>> :| IsJumpsHere(here, g, player, fuel);
      var legal: seq<Move> := [];
      jumpAvailable := false;
      var row := 0;
      while row < board.Length0
        invariant 0 <= row <= SIZE
        invariant ScanSearches(here, SIZE * row) == Done(legal)
        invariant jumpAvailable <==> legal != []
      {
        var overflow;
        legal, jumpAvailable, overflow := JumpRow(player, row, fuel, g, here, legal, jumpAvailable);
        if overflow {
          ScanJumpsBySquares(here, g, player, fuel, SIZE * SIZE);
          return OutOfFuel, jumpAvailable;
        }
        row := row + 1;
      }
      ScanJumpsBySquares(here, g, player, fuel, SIZE * SIZE);
      return Done(legal), jumpAvailable;
    }

    /** The inner loop of the first scan over the squares of one row; overflow
        reports a search that ran out of stack, which ends the whole scan. */
    method JumpRow(player: int, row: int, fuel: nat, ghost g: Grid, ghost here: Square -> Search<seq<Move>>,
                   legal: seq<Move>, jumpAvailable: bool)
      returns (legal': seq<Move>, jumpAvailable': bool, overflow: bool)
      requires Valid() && g == Snapshot() && IsJumpsHere(here, g, player, fuel) && 0 <= row < SIZE
      requires ScanSearches(here, SIZE * row) == Done(legal) && (jumpAvailable <==> legal != [])
      ensures overflow ==> ScanSearches(here, SIZE * SIZE).OutOfFuel?
      ensures !overflow ==> ScanSearches(here, SIZE * (row + 1)) == Done(legal') && (jumpAvailable' <==> legal' != [])
    {
      legal', jumpAvailable', overflow := legal, jumpAvailable, false;
      ghost var k := SIZE * row;
      var col := 0;
      while col < board.Length1
        invariant 0 <= col <= SIZE && k == SIZE * row + col
        invariant ScanSearches(here, k) == Done(legal')
        invariant jumpAvailable' <==> legal' != []
      {
        RowMajorStep(row, col);
        legal', jumpAvailable', overflow := JumpSquare(player, row, col, fuel, g, here, k, legal', jumpAvailable');
        if overflow {
          ScanSearchesOverflow(here, k + 1, SIZE * SIZE);
          return;
        }
        col := col + 1;
        k := k + 1;
      }
      RowMajorStep(row, 0);
    }

    /** One square of the first scan: an origin square adds the jumps its
        search finds and sets jumpAvailable when there are any; overflow
        reports a search that ran out of stack. */
    method JumpSquare(player: int, row: int, col: int, fuel: nat, ghost g: Grid,
                      ghost here: Square -> Search<seq<Move>>, ghost k: int, legal: seq<Move>, jumpAvailable: bool)
      returns (legal': seq<Move>, jumpAvailable': bool, overflow: bool)
      requires Valid() && g == Snapshot() && IsJumpsHere(here, g, player, fuel) && IsValidSquare(row, col)
      requires 0 <= k < SIZE * SIZE && RowMajor(k) == Square(row, col)
      requires ScanSearches(here, k) == Done(legal) && (jumpAvailable <==> legal != [])
      ensures overflow <==> ScanSearches(here, k + 1).OutOfFuel?
      ensures !overflow ==> ScanSearches(here, k + 1) == Done(legal') && (jumpAvailable' <==> legal' != [])
    {
      assert here(Square(row, col)) == JumpsHere(g, player, fuel, Square(row, col));
      legal', jumpAvailable', overflow := legal, jumpAvailable, false;
      if board[row, col] == player || board[row, col] == (if player == RED then RED_KING else BLACK_KING) {
        var jumps := GetLegalJumpsFrom(player, row, col, fuel);
        if jumps.OutOfFuel? {
          overflow := true;
        } else if jumps.value != [] {
          legal' := legal + jumps.value;
          jumpAvailable' := true;
        } else {
          assert legal + jumps.value == legal;
        }
      } else {
        assert legal + [] == legal;
      }
    }

    /** The second scan of getLegalMoves: the regular moves of every origin
        square in row-major order. */
    method FindAllRegularMoves(player: int) returns (legal: seq<Move>)
      requires Valid()
      ensures legal == ScanRegular(Snapshot(), player, SIZE * SIZE)
    {
      ghost var g := Snapshot();
      assert IsRegularHere(s => RegularHere(g, player, s), g, player);
      // The loops know the per-square moves only by their defining property.
      ghost var here: Square -> seq<Move> :| IsRegularHere(here, g, player);
      legal := [];
      var row := 0;
      while row < board.Length0
        invariant 0 <= row <= SIZE
        invariant legal == ScanSquares(here, SIZE * row)
      {
        legal := RegularRow(player, row, g, here, legal);
        row := row + 1;
      }
      ScanRegularBySquares(here, g, player, SIZE * SIZE);
    }

    /** The inner loop of the second scan over the squares of one row. */
    method RegularRow(player: int, row: int, ghost g: Grid, ghost here: Square -> seq<Move>, legal: seq<Move>)
      returns (legal': seq<Move>)
      requires Valid() && g == Snapshot() && IsRegularHere(here, g, player) && 0 <= row < SIZE
      requires legal == ScanSquares(here, SIZE * row)
      ensures legal' == ScanSquares(here, SIZE * (row + 1))
    {
      legal' := legal;
      ghost var k := SIZE * row;
      var col := 0;
      while col < board.Length1
        invariant 0 <= col <= SIZE && k == SIZE * row + col
        invariant legal' == ScanSquares(here, k)
      {
        RowMajorStep(row, col);
        legal' := RegularSquare(player, row, col, g, here, k, legal');
        col := col + 1;
        k := k + 1;
      }
      RowMajorStep(row, 0);
    }

    /** One square of the second scan: an origin square adds its regular
        moves. */
    method RegularSquare(player: int, row: int, col: int, ghost g: Grid,
                         ghost here: Square -> seq<Move>, ghost k: int, legal: seq<Move>)
      returns (legal': seq<Move>)
      requires Valid() && g == Snapshot() && IsRegularHere(here, g, player) && IsValidSquare(row, col)
      requires 0 <= k < SIZE * SIZE && RowMajor(k) == Square(row, col)
      requires legal == ScanSquares(here, k)
      ensures legal' == ScanSquares(here, k + 1)
    {
      assert here(Square(row, col)) == RegularHere(g, player, Square(row, col));
      if board[row, col] == player || board[row, col] == (if player == RED then RED_KING else BLACK_KING) {
        var regular := GetLegalRegularMovesFrom(player, row, col);
        legal' := if regular.Some? then legal + regular.value else legal;
      } else {
        legal' := legal;
      }
    }
  }
}
