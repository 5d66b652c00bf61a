/** What the move generators promise beyond their own contracts: how far the
    recursion of getLegalJumpsFrom goes, and the forced-capture rule of
    getLegalMoves. */
module MoveGenFacts {
  import opened Board
  import opened MoveGen
  import Apply

  // ---------------------------------------------------------------------------
  // Fuel: the depth bound never changes a result, it only cuts the search off

  lemma {:induction false} JumpsFromFuel(g: Grid, player: int, row: int, col: int, f1: nat, f2: nat)
    requires f1 <= f2 && JumpsFrom(g, player, row, col, f1).Done?
    ensures JumpsFrom(g, player, row, col, f2) == JumpsFrom(g, player, row, col, f1)
    decreases f1, 0
  {
    JumpsAlongFuel(g, player, Square(row, col), Directions(player), f1 - 1, f2 - 1);
  }

  lemma {:induction false} JumpsAlongFuel(g: Grid, player: int, s: Square, ds: seq<Dir>, f1: nat, f2: nat)
    requires f1 <= f2 && JumpsAlong(g, player, s, ds, f1).Done?
    ensures JumpsAlong(g, player, s, ds, f2) == JumpsAlong(g, player, s, ds, f1)
    decreases f1, |ds|
  {
    if ds != [] {
      var d := ds[|ds| - 1];
      JumpsAlongFuel(g, player, s, ds[..|ds| - 1], f1, f2);
      if CanJump(g, player, s, d) {
        var l := Land(s, d);
        JumpsFromFuel(g, player, l.row, l.col, f1, f2);
      }
    }
  }

  /** When every jump from s in the directions ds lands on a square whose own
      search finishes, the direction loop finishes. */
  lemma {:induction false} AlongDone(g: Grid, player: int, s: Square, ds: seq<Dir>, fuel: nat)
    requires forall d :: d in ds && CanJump(g, player, s, d) ==>
      JumpsFrom(g, player, Land(s, d).row, Land(s, d).col, fuel).Done?
    ensures JumpsAlong(g, player, s, ds, fuel).Done?
    decreases |ds|
  {
    if ds != [] {
      AlongDone(g, player, s, ds[..|ds| - 1], fuel);
    }
  }

  /** A search from a square without a jump finishes at once with null. */
  lemma NoJumpDone(g: Grid, player: int, row: int, col: int, fuel: nat)
    requires fuel >= 1 && !HasJump(g, player, Square(row, col))
    ensures JumpsFrom(g, player, row, col, fuel) == Done([])
  {
    AlongDone(g, player, Square(row, col), Directions(player), fuel - 1);
    JumpsFromChains(g, player, row, col, fuel);
  }

  /** The number of further calls a man's search can make from `row`: every
      level of the recursion moves two rows in the one direction the man
      has. */
  function ManDepth(player: int, row: int): (n: nat)
    ensures n <= 4
  {
    if player == RED then (if 2 <= row <= 8 then row / 2 else 0)
    else (if -1 <= row <= 5 then (7 - row) / 2 else 0)
  }

  lemma {:induction false} ManJumpsFromDone(g: Grid, player: int, row: int, col: int, fuel: nat)
    requires player == RED || player == BLACK
    requires fuel > ManDepth(player, row)
    ensures JumpsFrom(g, player, row, col, fuel).Done?
    decreases fuel, 0
  {
    ManJumpsAlongDone(g, player, Square(row, col), Directions(player), fuel - 1);
  }

  lemma {:induction false} ManJumpsAlongDone(g: Grid, player: int, s: Square, ds: seq<Dir>, fuel: nat)
    requires player == RED || player == BLACK
    requires forall d :: d in ds ==> d in Directions(player)
    requires fuel >= ManDepth(player, s.row)
    ensures JumpsAlong(g, player, s, ds, fuel).Done?
    decreases fuel, |ds|
  {
    if ds != [] {
      var d := ds[|ds| - 1];
      var pre := ds[..|ds| - 1];
      assert forall e :: e in pre ==> e in ds;
      ManJumpsAlongDone(g, player, s, pre, fuel);
      if CanJump(g, player, s, d) {
        var l := Land(s, d);
        assert d in Directions(player);
        ManJumpsFromDone(g, player, l.row, l.col, fuel);
      }
    }
  }

  /** For RED and BLACK the jump search always returns: five levels of
      recursion are the most it can need. */
  lemma ManJumpsComplete(g: Grid, player: int, row: int, col: int, fuel: nat)
    requires player == RED || player == BLACK
    requires fuel >= 5
    ensures JumpsFrom(g, player, row, col, fuel).Done?
  {
    ManJumpsFromDone(g, player, row, col, fuel);
  }

  /** A jump found in one of the directions ds whose own search overflows
      makes the whole direction loop overflow. */
  lemma {:induction false} OverflowInDirection(g: Grid, player: int, s: Square, ds: seq<Dir>, d: Dir, fuel: nat)
    requires d in ds && CanJump(g, player, s, d)
    requires JumpsFrom(g, player, Land(s, d).row, Land(s, d).col, fuel).OutOfFuel?
    ensures JumpsAlong(g, player, s, ds, fuel).OutOfFuel?
    decreases |ds|
  {
    var pre := ds[..|ds| - 1];
    assert ds == pre + [ds[|ds| - 1]];
    if d in pre {
      OverflowInDirection(g, player, s, pre, d, fuel);
    }
  }

  /** After the first i directions, the direction loop takes its turn for
      direction ds[i]. */
  lemma AlongTurn(g: Grid, player: int, s: Square, ds: seq<Dir>, i: int, fuel: nat, before: seq<Move>)
    requires 0 <= i < |ds| && JumpsAlong(g, player, s, ds[..i], fuel) == Done(before)
    ensures JumpsAlong(g, player, s, ds[..i + 1], fuel) == TryJump(g, player, s, ds[i], fuel, before)
  {
    assert ds[..i + 1][..i] == ds[..i];
  }

  /** With fuel left, getLegalJumpsFrom is its direction loop over the
      player's directions. */
  lemma JumpsFromUnfold(g: Grid, player: int, row: int, col: int, fuel: nat)
    requires fuel > 0
    ensures JumpsFrom(g, player, row, col, fuel) == JumpsAlong(g, player, Square(row, col), Directions(player), fuel - 1)
  {
  }

  /** Once the direction loop has overflowed on the first i directions, the
      whole loop overflows. */
  lemma {:induction false} AlongOverflowPersists(g: Grid, player: int, s: Square, ds: seq<Dir>, i: int, fuel: nat)
    requires 0 <= i <= |ds| && JumpsAlong(g, player, s, ds[..i], fuel).OutOfFuel?
    ensures JumpsAlong(g, player, s, ds, fuel).OutOfFuel?
    decreases |ds|
  {
    if i < |ds| {
      var pre := ds[..|ds| - 1];
      assert pre[..i] == ds[..i];
      AlongOverflowPersists(g, player, s, pre, i, fuel);
      assert ds == pre + [ds[|ds| - 1]];
    } else {
      assert ds[..i] == ds;
    }
  }

  /** A jump from s whose own search overflows makes the search from s
      overflow. */
  lemma JumpOverflows(g: Grid, player: int, s: Square, d: Dir, l: Square, fuel: nat)
    requires fuel > 0 && d in Directions(player) && CanJump(g, player, s, d) && l == Land(s, d)
    requires JumpsFrom(g, player, l.row, l.col, fuel - 1).OutOfFuel?
    ensures JumpsFrom(g, player, s.row, s.col, fuel).OutOfFuel?
  {
    OverflowInDirection(g, player, s, Directions(player), d, fuel - 1);
    JumpsFromUnfold(g, player, s.row, s.col, fuel);
  }

  /** A king's jump from an empty square l can be made straight back from
      the landing square, over the same opponent, onto l. */
  lemma KingJumpsBack(g: Grid, player: int, l: Square, d: Dir)
    requires player == RED_KING || player == BLACK_KING
    requires OnBoard(l) && At(g, l) == EMPTY
    requires d in Directions(player) && CanJump(g, player, l, d)
    ensures Dir(-d.dr, -d.dc) in Directions(player)
    ensures Land(Land(l, d), Dir(-d.dr, -d.dc)) == l
    ensures OnBoard(Land(l, d)) && At(g, Land(l, d)) == EMPTY
    ensures CanJump(g, player, Land(l, d), Dir(-d.dr, -d.dc))
  {
    var x, back := Land(l, d), Dir(-d.dr, -d.dc);
    assert Land(x, back) == l;
    assert x.row + back.dr == l.row + d.dr && x.col + back.dc == l.col + d.dc;
  }

  /** A king that can jump from an empty square l to x can jump straight back
      from x to l, which is still empty because the search never changes the
      board: the search from l overflows whatever the fuel. */
  lemma {:induction false} KingBounce(g: Grid, player: int, l: Square, d: Dir, fuel: nat)
    requires player == RED_KING || player == BLACK_KING
    requires OnBoard(l) && At(g, l) == EMPTY
    requires d in Directions(player) && CanJump(g, player, l, d)
    ensures JumpsFrom(g, player, l.row, l.col, fuel).OutOfFuel?
    decreases fuel
  {
    if fuel > 0 {
      KingJumpsBack(g, player, l, d);
      KingBounce(g, player, Land(l, d), Dir(-d.dr, -d.dc), fuel - 1);
      JumpOverflows(g, player, l, d, Land(l, d), fuel);
    }
  }

  /** For a king player, a jump whose landing square offers another jump makes
      getLegalJumpsFrom recurse without end: no fuel is enough. */
  lemma KingDoubleJumpOverflows(g: Grid, player: int, row: int, col: int, l: Square, fuel: nat)
    requires player == RED_KING || player == BLACK_KING
    requires IsJumpStep(g, player, Square(row, col), l) && HasJump(g, player, l)
    ensures JumpsFrom(g, player, row, col, fuel).OutOfFuel?
  {
    var s := Square(row, col);
    var d1 :| d1 in Directions(player) && CanJump(g, player, s, d1) && l == Land(s, d1);
    var d2 :| d2 in Directions(player) && CanJump(g, player, l, d2);
    KingJumpOntoBounce(g, player, s, d1, d2, fuel);
  }

  /** A king's jump in direction d1 onto a square with a jump in direction d2
      overflows the search from s. */
  lemma KingJumpOntoBounce(g: Grid, player: int, s: Square, d1: Dir, d2: Dir, fuel: nat)
    requires player == RED_KING || player == BLACK_KING
    requires d1 in Directions(player) && CanJump(g, player, s, d1)
    requires d2 in Directions(player) && CanJump(g, player, Land(s, d1), d2)
    ensures JumpsFrom(g, player, s.row, s.col, fuel).OutOfFuel?
  {
    if fuel > 0 {
      KingBounce(g, player, Land(s, d1), d2, fuel - 1);
      JumpOverflows(g, player, s, d1, Land(s, d1), fuel);
    }
  }

  /** When no jump from s lands on a square with a jump of its own, the
      search from every landing square finishes at once. */
  lemma LandingsDone(g: Grid, player: int, s: Square, fuel: nat)
    requires forall l :: IsJumpStep(g, player, s, l) ==> !HasJump(g, player, l)
    requires fuel >= 1
    ensures forall d :: d in Directions(player) && CanJump(g, player, s, d) ==>
      JumpsFrom(g, player, Land(s, d).row, Land(s, d).col, fuel).Done?
  {
    forall d | d in Directions(player) && CanJump(g, player, s, d)
      ensures JumpsFrom(g, player, Land(s, d).row, Land(s, d).col, fuel).Done?
    {
      var l := Land(s, d);
      assert IsJumpStep(g, player, s, l);
      NoJumpDone(g, player, l.row, l.col, fuel);
    }
  }

  /** Conversely, a king whose every jump lands on a square without a jump
      finishes with two levels of fuel. */
  lemma KingSingleJumpsComplete(g: Grid, player: int, row: int, col: int, fuel: nat)
    requires player == RED_KING || player == BLACK_KING
    requires forall l :: IsJumpStep(g, player, Square(row, col), l) ==> !HasJump(g, player, l)
    requires fuel >= 2
    ensures JumpsFrom(g, player, row, col, fuel).Done?
  {
    LandingsDone(g, player, Square(row, col), fuel - 1);
    AlongDone(g, player, Square(row, col), Directions(player), fuel - 1);
    JumpsFromUnfold(g, player, row, col, fuel);
  }

  // ---------------------------------------------------------------------------
  // The board scan of getLegalMoves

  lemma {:induction false} ScanJumpsFuel(g: Grid, player: int, k: int, f1: nat, f2: nat)
    requires 0 <= k <= SIZE * SIZE
    requires f1 <= f2 && ScanJumps(g, player, k, f1).Done?
    ensures ScanJumps(g, player, k, f2) == ScanJumps(g, player, k, f1)
  {
    if k > 0 {
      ScanJumpsFuel(g, player, k - 1, f1, f2);
      var s := RowMajor(k - 1);
      if IsOrigin(g, player, s) {
        JumpsFromFuel(g, player, s.row, s.col, f1, f2);
      }
    }
  }

  /** An overflow in the search from any origin square of the scan makes the
      rest of the scan, and so getLegalMoves, overflow as well. */
  lemma {:induction false} ScanOverflowPersists(g: Grid, player: int, k: int, n: int, fuel: nat)
    requires 0 <= k <= n <= SIZE * SIZE
    requires ScanJumps(g, player, k, fuel).OutOfFuel?
    ensures ScanJumps(g, player, n, fuel).OutOfFuel?
    ensures n == SIZE * SIZE && KnownPlayer(player) ==> LegalMoves(g, player, fuel) == OutOfFuel
    decreases n
  {
    if k < n {
      ScanOverflowPersists(g, player, k, n - 1, fuel);
    }
  }

  /** Once getLegalMoves returns with some stack depth, it returns the same
      moves with any larger one. */
  lemma LegalMovesFuel(g: Grid, player: int, f1: nat, f2: nat)
    requires f1 <= f2 && LegalMoves(g, player, f1).Done?
    ensures LegalMoves(g, player, f2) == LegalMoves(g, player, f1)
  {
    if KnownPlayer(player) {
      ScanJumpsFuel(g, player, SIZE * SIZE, f1, f2);
    }
  }

  lemma {:induction false} ManScanDone(g: Grid, player: int, k: int, fuel: nat)
    requires player == RED || player == BLACK
    requires 0 <= k <= SIZE * SIZE && fuel >= 5
    ensures ScanJumps(g, player, k, fuel).Done?
  {
    if k > 0 {
      ManScanDone(g, player, k - 1, fuel);
      var s := RowMajor(k - 1);
      ManJumpsComplete(g, player, s.row, s.col, fuel);
    }
  }

  /** For RED and BLACK getLegalMoves always returns. */
  lemma ManLegalMovesComplete(g: Grid, player: int, fuel: nat)
    requires player == RED || player == BLACK
    requires fuel >= 5
    ensures LegalMoves(g, player, fuel).Done?
  {
    ManScanDone(g, player, SIZE * SIZE, fuel);
  }

  /** Some origin square of `player` has a jump. */
  ghost predicate AnyJump(g: Grid, player: int) {
    exists j :: 0 <= j < SIZE * SIZE && IsOrigin(g, player, RowMajor(j)) && HasJump(g, player, RowMajor(j))
  }

  /** Some origin square of `player` has a free one-step move. */
  ghost predicate AnyStep(g: Grid, player: int) {
    exists j, d :: 0 <= j < SIZE * SIZE && IsOrigin(g, player, RowMajor(j)) && d in Directions(player) &&
      CanStep(g, RowMajor(j), d)
  }

  lemma {:induction false} NoJumpScanDone(g: Grid, player: int, k: int, fuel: nat)
    requires 0 <= k <= SIZE * SIZE && fuel >= 1
    requires forall j :: 0 <= j < k && IsOrigin(g, player, RowMajor(j)) ==> !HasJump(g, player, RowMajor(j))
    ensures ScanJumps(g, player, k, fuel) == Done([])
  {
    if k > 0 {
      NoJumpScanDone(g, player, k - 1, fuel);
      var s := RowMajor(k - 1);
      if IsOrigin(g, player, s) {
        NoJumpDone(g, player, s.row, s.col, fuel);
        var none: seq<Move> := [];
        assert JumpsFrom(g, player, s.row, s.col, fuel) == Done(none);
        assert ScanJumps(g, player, k - 1, fuel) == Done(none);
        assert none + none == none;
      }
    }
  }

  /** A jump step lands on the board, two rows and two columns away. */
  lemma JumpStepShape(g: Grid, player: int, s: Square, t: Square)
    requires IsJumpStep(g, player, s, t)
    ensures OnBoard(t) && Apply.IsJumpGeometry(s, t)
  {
    var d :| d in Directions(player) && CanJump(g, player, s, d) && t == Land(s, d);
    assert IsDiagonal(d);
  }

  /** A move of two or three squares whose steps each land on the board two
      rows and two columns away. */
  lemma ShortJumpShape(m: Move)
    requires 2 <= |m| <= 3 && OnBoard(m[0]) && OnBoard(m[1]) && Apply.IsJumpGeometry(m[0], m[1])
    requires |m| == 3 ==> OnBoard(m[2]) && Apply.IsJumpGeometry(m[1], m[2])
    ensures Apply.AllOnBoard(m)
    ensures forall i :: 0 <= i < |m| - 1 ==> Apply.IsJumpGeometry(m[i], m[i + 1])
  {
  }

  /** Every square of a jump chain lies on the board, and each of its steps
      has the jump geometry that makes makeMove remove the middle piece. */
  lemma JumpChainShape(g: Grid, player: int, s: Square, m: Move)
    requires OnBoard(s) && IsJumpChain(g, player, s, m)
    ensures Apply.AllOnBoard(m)
    ensures forall i :: 0 <= i < |m| - 1 ==> Apply.IsJumpGeometry(m[i], m[i + 1])
  {
    JumpStepShape(g, player, s, m[1]);
    if |m| == 3 {
      JumpStepShape(g, player, m[1], m[2]);
    }
    ShortJumpShape(m);
  }

  /** When some origin square has a jump, a returning getLegalMoves returns
      the result of its first scan. */
  lemma JumpScanReturned(g: Grid, player: int, fuel: nat)
    requires KnownPlayer(player) && AnyJump(g, player)
    requires LegalMoves(g, player, fuel).Done?
    ensures ScanJumps(g, player, SIZE * SIZE, fuel).Done?
    ensures ScanJumps(g, player, SIZE * SIZE, fuel).value != []
    ensures LegalMoves(g, player, fuel) == Done(Some(ScanJumps(g, player, SIZE * SIZE, fuel).value))
  {
    var scan := ScanJumps(g, player, SIZE * SIZE, fuel);
    assert scan.Done?;
    ScanJumpsEmpty(g, player, SIZE * SIZE, fuel);
    var j0 :| 0 <= j0 < SIZE * SIZE && IsOrigin(g, player, RowMajor(j0)) && HasJump(g, player, RowMajor(j0));
    assert ScanJumps(g, player, SIZE * SIZE, fuel).value != [];
  }

  /** With a jump available, the moves a returning getLegalMoves offers are
      exactly the jump chains of the origin squares. */
  lemma ForcedCaptureChains(g: Grid, player: int, fuel: nat)
    requires KnownPlayer(player) && AnyJump(g, player)
    requires LegalMoves(g, player, fuel).Done?
    ensures LegalMoves(g, player, fuel).value.Some?
    ensures forall m :: m in LegalMoves(g, player, fuel).value.value <==>
      JumpChainAmong(g, player, SIZE * SIZE, m)
  {
    JumpScanReturned(g, player, fuel);
    ScanJumpsChains(g, player, SIZE * SIZE, fuel);
  }

  /** Forced capture: when any origin square has a jump, getLegalMoves returns
      exactly the jump chains of all origin squares, and every one of its moves
      captures at each step; no one-step move is offered. */
  lemma ForcedCapture(g: Grid, player: int, fuel: nat)
    requires KnownPlayer(player) && AnyJump(g, player)
    requires LegalMoves(g, player, fuel).Done?
    ensures LegalMoves(g, player, fuel).value.Some?
    ensures forall m :: m in LegalMoves(g, player, fuel).value.value <==>
      JumpChainAmong(g, player, SIZE * SIZE, m)
    ensures forall m :: m in LegalMoves(g, player, fuel).value.value ==>
      |m| >= 2 && forall i :: 0 <= i < |m| - 1 ==> Apply.IsJumpGeometry(m[i], m[i + 1])
  {
    ForcedCaptureChains(g, player, fuel);
    forall m | m in LegalMoves(g, player, fuel).value.value
      ensures |m| >= 2 && forall i :: 0 <= i < |m| - 1 ==> Apply.IsJumpGeometry(m[i], m[i + 1])
    {
      var j :| 0 <= j < SIZE * SIZE && IsOrigin(g, player, RowMajor(j)) && IsJumpChain(g, player, RowMajor(j), m);
      JumpChainShape(g, player, RowMajor(j), m);
    }
  }

  /** Without any jump, a returning getLegalMoves returns what its second scan
      finds, or null when that is nothing. */
  lemma StepScanReturned(g: Grid, player: int, fuel: nat)
    requires KnownPlayer(player) && !AnyJump(g, player)
    requires LegalMoves(g, player, fuel).Done?
    ensures LegalMoves(g, player, fuel) ==
      if ScanRegular(g, player, SIZE * SIZE) == [] then Done(None) else Done(Some(ScanRegular(g, player, SIZE * SIZE)))
  {
    assert ScanJumps(g, player, SIZE * SIZE, fuel).Done?;
    ScanJumpsEmpty(g, player, SIZE * SIZE, fuel);
    assert ScanJumps(g, player, SIZE * SIZE, fuel).value == [];
  }

  /** A free one-step move from an origin square among the first k is found
      by the second scan. */
  lemma StepFound(g: Grid, player: int, k: int, j: int, d: Dir)
    requires 0 <= j < k <= SIZE * SIZE
    requires IsOrigin(g, player, RowMajor(j)) && d in Directions(player) && CanStep(g, RowMajor(j), d)
    ensures ScanRegular(g, player, k) != []
  {
    ScanRegularMoves(g, player, k);
    var s := RowMajor(j);
    assert IsRegularMove(g, player, s, [s, Neighbor(s, d)]);
    assert RegularMoveAmong(g, player, k, [s, Neighbor(s, d)]);
  }

  /** Whatever the second scan finds is a free one-step move from an origin
      square among the first k. */
  lemma FoundStep(g: Grid, player: int, k: int) returns (j: int, d: Dir)
    requires 0 <= k <= SIZE * SIZE && ScanRegular(g, player, k) != []
    ensures 0 <= j < k && IsOrigin(g, player, RowMajor(j)) && d in Directions(player) && CanStep(g, RowMajor(j), d)
  {
    var m := ScanRegular(g, player, k)[0];
    ScanRegularMoves(g, player, k);
    assert RegularMoveAmong(g, player, k, m);
    j :| 0 <= j < k && IsOrigin(g, player, RowMajor(j)) && IsRegularMove(g, player, RowMajor(j), m);
    d :| d in Directions(player) && CanStep(g, RowMajor(j), d) && m == [RowMajor(j), Neighbor(RowMajor(j), d)];
  }

  /** Some origin square has a free one-step move exactly when the second
      scan finds a move. */
  lemma AnyStepFound(g: Grid, player: int)
    ensures ScanRegular(g, player, SIZE * SIZE) != [] <==> AnyStep(g, player)
  {
    if AnyStep(g, player) {
      var j, d :| 0 <= j < SIZE * SIZE && IsOrigin(g, player, RowMajor(j)) && d in Directions(player) &&
        CanStep(g, RowMajor(j), d);
      StepFound(g, player, SIZE * SIZE, j, d);
    }
    if ScanRegular(g, player, SIZE * SIZE) != [] {
      var j, d := FoundStep(g, player, SIZE * SIZE);
    }
  }

  /** Without any jump, getLegalMoves returns the one-step moves of all
      origin squares, and null exactly when there is none. */
  lemma NoCaptureMeansSteps(g: Grid, player: int, fuel: nat)
    requires KnownPlayer(player) && !AnyJump(g, player)
    requires LegalMoves(g, player, fuel).Done?
    ensures LegalMoves(g, player, fuel).value.None? <==> !AnyStep(g, player)
    ensures LegalMoves(g, player, fuel).value.Some? ==>
      forall m :: m in LegalMoves(g, player, fuel).value.value <==>
        RegularMoveAmong(g, player, SIZE * SIZE, m)
  {
    StepScanReturned(g, player, fuel);
    ScanRegularMoves(g, player, SIZE * SIZE);
    AnyStepFound(g, player);
  }

  /** With no jump anywhere and a stack of at least one frame, getLegalMoves
      returns. */
  lemma NoCaptureComplete(g: Grid, player: int, fuel: nat)
    requires !AnyJump(g, player) && fuel >= 1
    ensures LegalMoves(g, player, fuel).Done?
  {
    NoJumpScanDone(g, player, SIZE * SIZE, fuel);
  }
}
