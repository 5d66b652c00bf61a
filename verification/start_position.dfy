/** The position setUpGame creates, and the invariant that pieces stay on the
    squares with row % 2 == col % 2. */
module StartPosition {
  import opened Board
  import opened MoveGen
  import opened MoveGenFacts
  import Apply

  /** Diagonal steps and jumps keep row % 2 == col % 2. */
  lemma DiagonalKeepsParity(s: Square, d: Dir)
    requires IsDiagonal(d) && s.row % 2 == s.col % 2
    ensures Neighbor(s, d).row % 2 == Neighbor(s, d).col % 2
    ensures Land(s, d).row % 2 == Land(s, d).col % 2
  {
  }

  /** setUpGame puts pieces only on squares with row % 2 == col % 2. */
  lemma InitialDarkOnly()
    ensures DarkOnly(InitialGrid())
  {
  }

  /** In the start position no origin square of any player can step or jump:
      RED stands on rows 0-2 but moves towards row 0, BLACK stands on rows
      5-7 but moves towards row 7, and there are no kings. */
  lemma StartSquareBlocked(player: int, s: Square)
    requires KnownPlayer(player) && OnBoard(s)
    ensures IsOrigin(InitialGrid(), player, s) ==>
      !HasJump(InitialGrid(), player, s) && forall d :: d in Directions(player) ==> !CanStep(InitialGrid(), s, d)
  {
    var g := InitialGrid();
    if player == RED || player == BLACK {
      forall d | d in Directions(player) && At(g, s) == player
        ensures !CanJump(g, player, s, d) && !CanStep(g, s, d)
      {
        DiagonalKeepsParity(s, d);
      }
    }
  }

  /** Whatever the player and the stack depth, getLegalMoves on the start
      position returns null: neither side has a move. */
  lemma StartPositionHasNoMoves(player: int, fuel: nat)
    requires fuel >= 1
    ensures LegalMoves(InitialGrid(), player, fuel) == Done(None)
  {
    var g := InitialGrid();
    if KnownPlayer(player) {
      forall j | 0 <= j < SIZE * SIZE
        ensures IsOrigin(g, player, RowMajor(j)) ==>
          !HasJump(g, player, RowMajor(j)) && forall d :: d in Directions(player) ==> !CanStep(g, RowMajor(j), d)
      {
        RowMajorOnBoard(j);
        StartSquareBlocked(player, RowMajor(j));
      }
      NoCaptureComplete(g, player, fuel);
      NoCaptureMeansSteps(g, player, fuel);
    }
  }

  predicate DarkSquares(m: Move) {
    forall i :: 0 <= i < |m| ==> m[i].row % 2 == m[i].col % 2
  }

  lemma JumpChainDark(g: Grid, player: int, s: Square, m: Move)
    requires OnBoard(s) && s.row % 2 == s.col % 2 && IsJumpChain(g, player, s, m)
    ensures Apply.AllOnBoard(m) && DarkSquares(m)
  {
    JumpChainShape(g, player, s, m);
    DirectionsDiagonal(player);
    var d1 :| d1 in Directions(player) && CanJump(g, player, s, d1) && m[1] == Land(s, d1);
    DiagonalKeepsParity(s, d1);
    if |m| == 3 {
      var d2 :| d2 in Directions(player) && CanJump(g, player, m[1], d2) && m[2] == Land(m[1], d2);
      DiagonalKeepsParity(m[1], d2);
      assert m[2].row % 2 == m[2].col % 2;
    }
  }

  lemma RegularMoveDark(g: Grid, player: int, s: Square, m: Move)
    requires OnBoard(s) && s.row % 2 == s.col % 2 && IsRegularMove(g, player, s, m)
    ensures Apply.AllOnBoard(m) && DarkSquares(m)
  {
    var d :| d in Directions(player) && CanStep(g, s, d) && m == [s, Neighbor(s, d)];
    DiagonalKeepsParity(s, d);
  }

  /** A jump chain from an occupied origin square keeps to the squares with
      row % 2 == col % 2. */
  lemma ChainAmongDark(g: Grid, player: int, m: Move)
    requires DarkOnly(g) && KnownPlayer(player) && JumpChainAmong(g, player, SIZE * SIZE, m)
    ensures Apply.AllOnBoard(m) && DarkSquares(m)
  {
    var j :| 0 <= j < SIZE * SIZE && IsOrigin(g, player, RowMajor(j)) && IsJumpChain(g, player, RowMajor(j), m);
    var s := RowMajor(j);
    assert At(g, s) != EMPTY;
    JumpChainDark(g, player, s, m);
  }

  /** So does a one-step move from an occupied origin square. */
  lemma RegularAmongDark(g: Grid, player: int, m: Move)
    requires DarkOnly(g) && KnownPlayer(player) && RegularMoveAmong(g, player, SIZE * SIZE, m)
    ensures Apply.AllOnBoard(m) && DarkSquares(m)
  {
    var j :| 0 <= j < SIZE * SIZE && IsOrigin(g, player, RowMajor(j)) && IsRegularMove(g, player, RowMajor(j), m);
    var s := RowMajor(j);
    assert At(g, s) != EMPTY;
    RegularMoveDark(g, player, s, m);
  }

  /** Every move getLegalMoves offers stays on the board and on squares with
      row % 2 == col % 2 when the pieces do, so making it keeps every piece on
      such a square. */
  lemma LegalMoveKeepsDark(g: Grid, player: int, fuel: nat, m: Move)
    requires DarkOnly(g) && KnownPlayer(player)
    requires LegalMoves(g, player, fuel).Done? && LegalMoves(g, player, fuel).value.Some?
    requires m in LegalMoves(g, player, fuel).value.value
    ensures Apply.AllOnBoard(m)
    ensures DarkOnly(Apply.ApplyMove(g, m))
  {
    if AnyJump(g, player) {
      ForcedCaptureChains(g, player, fuel);
      ChainAmongDark(g, player, m);
    } else {
      NoCaptureMeansSteps(g, player, fuel);
      RegularAmongDark(g, player, m);
    }
    Apply.MoveKeepsDark(g, m);
  }
}
