/** The move generators of CheckersData as functions of a board value:
    getLegalRegularMovesFrom, getLegalJumpsFrom and getLegalMoves. */
module MoveGen {
  import opened Board

  /** One entry of the parallel rowDirections / colDirections arrays. */
  datatype Dir = Dir(dr: int, dc: int)

  /** The player values the generators accept; every other value makes them
      return null. */
  predicate KnownPlayer(player: int) {
    player == RED || player == BLACK || player == RED_KING || player == BLACK_KING
  }

  predicate IsDiagonal(d: Dir) {
    (d.dr == -1 || d.dr == 1) && (d.dc == -1 || d.dc == 1)
  }

  /** The directions the generators try for `player`, in the order of the Java code:
      RED only towards row 0, BLACK only towards row 7, either king code all
      four diagonals, and nothing for any other value. */
  function Directions(player: int): (ds: seq<Dir>)
    ensures |ds| == if player == RED || player == BLACK then 2 else if KnownPlayer(player) then 4 else 0
  {
    if player == RED then [Dir(-1, -1), Dir(-1, 1)]
    else if player == BLACK then [Dir(1, -1), Dir(1, 1)]
    else if player == RED_KING || player == BLACK_KING then
      [Dir(-1, -1), Dir(-1, 1), Dir(1, -1), Dir(1, 1)]
    else []
  }

  /** Every direction tried is diagonal; RED moves only towards row 0, BLACK
      only towards row SIZE - 1, and a king code in all four diagonals. */
  lemma DirectionsDiagonal(player: int)
    ensures forall d :: d in Directions(player) ==> IsDiagonal(d)
    ensures player == RED ==> forall d :: d in Directions(player) <==> IsDiagonal(d) && d.dr == -1
    ensures player == BLACK ==> forall d :: d in Directions(player) <==> IsDiagonal(d) && d.dr == 1
    ensures player == RED_KING || player == BLACK_KING ==> forall d :: d in Directions(player) <==> IsDiagonal(d)
  {
  }

  function Neighbor(s: Square, d: Dir): Square {
    Square(s.row + d.dr, s.col + d.dc)
  }

  function Land(s: Square, d: Dir): Square {
    Square(s.row + 2 * d.dr, s.col + 2 * d.dc)
  }

  // ---------------------------------------------------------------------------
  // Regular (one-step) moves

  /** The test of getLegalRegularMovesFrom for one direction. */
  predicate CanStep(g: Grid, s: Square, d: Dir) {
    OnBoard(Neighbor(s, d)) && At(g, Neighbor(s, d)) == EMPTY
  }

  /** m is a one-step move of `player` from s onto an empty square. */
  predicate IsRegularMove(g: Grid, player: int, s: Square, m: Move) {
    exists d :: d in Directions(player) && CanStep(g, s, d) && m == [s, Neighbor(s, d)]
  }

  /** The moves the direction loop of getLegalRegularMovesFrom collects
      after trying the directions ds in order. */
  function RegularAlong(g: Grid, s: Square, ds: seq<Dir>): (ms: seq<Move>)
    ensures |ms| <= |ds|
  {
    if ds == [] then []
    else
      var d := ds[|ds| - 1];
      RegularAlong(g, s, ds[..|ds| - 1]) + if CanStep(g, s, d) then [[s, Neighbor(s, d)]] else []
  }

  /** The direction loop collects exactly the steps onto an empty square in
      one of the directions tried. */
  lemma {:induction false} RegularAlongMoves(g: Grid, s: Square, ds: seq<Dir>)
    ensures forall m :: m in RegularAlong(g, s, ds) <==>
      exists d :: d in ds && CanStep(g, s, d) && m == [s, Neighbor(s, d)]
    decreases |ds|
  {
    if ds != [] {
      var pre, d := ds[..|ds| - 1], ds[|ds| - 1];
      assert ds == pre + [d];
      RegularAlongMoves(g, s, pre);
    }
  }

  /** getLegalRegularMovesFrom: None (null) for an unknown player, otherwise
      every free one-step move, possibly none. */
  function RegularMovesFrom(g: Grid, player: int, row: int, col: int): (r: Option<seq<Move>>)
    ensures r.Some? <==> KnownPlayer(player)
  {
    if !KnownPlayer(player) then None
    else Some(RegularAlong(g, Square(row, col), Directions(player)))
  }

  /** For a known player the moves are exactly the regular moves from the
      square, at most one per direction. */
  lemma RegularMovesFromMoves(g: Grid, player: int, row: int, col: int)
    requires KnownPlayer(player)
    ensures |RegularMovesFrom(g, player, row, col).value| <= |Directions(player)|
    ensures forall m :: m in RegularMovesFrom(g, player, row, col).value <==>
      IsRegularMove(g, player, Square(row, col), m)
  {
    RegularAlongMoves(g, Square(row, col), Directions(player));
  }

  // ---------------------------------------------------------------------------
  // Jumps

  /** The test of getLegalJumpsFrom for one direction: the landing square is
      on the board and empty, and the square jumped over holds an opponent. */
  predicate CanJump(g: Grid, player: int, s: Square, d: Dir) {
    && OnBoard(Land(s, d))
    && At(g, Land(s, d)) == EMPTY
    && IsOpponent(g, player, s.row + d.dr, s.col + d.dc)
  }

  predicate IsJumpStep(g: Grid, player: int, s: Square, t: Square) {
    exists d :: d in Directions(player) && CanJump(g, player, s, d) && t == Land(s, d)
  }

  predicate HasJump(g: Grid, player: int, s: Square) {
    exists d :: d in Directions(player) && CanJump(g, player, s, d)
  }

  /** m starts with the jump s -> l and, as getLegalJumpsFrom builds it, ends
      there when l has no jump, or else carries exactly one more square: the
      landing square of a jump from l. */
  predicate ChainVia(g: Grid, player: int, s: Square, l: Square, m: Move) {
    && 2 <= |m| <= 3
    && m[0] == s
    && m[1] == l
    && if |m| == 2 then !HasJump(g, player, l) else IsJumpStep(g, player, l, m[2])
  }

  /** The moves getLegalJumpsFrom returns from s (up to repetition). */
  predicate IsJumpChain(g: Grid, player: int, s: Square, m: Move) {
    |m| >= 2 && IsJumpStep(g, player, s, m[1]) && ChainVia(g, player, s, m[1], m)
  }

  /** The clone-and-addMove splice: one move per continuation, keeping only
      the continuation's second square. */
  function Extend(s: Square, l: Square, further: seq<Move>): (ms: seq<Move>)
    requires forall f :: f in further ==> |f| >= 2
    ensures |ms| == |further|
    ensures forall i :: 0 <= i < |ms| ==> ms[i] == [s, l, further[i][1]]
  {
    seq(|further|, i requires 0 <= i < |further| => [s, l, further[i][1]])
  }

  /** Every jump step from l begins some chain from l. */
  lemma ChainThrough(g: Grid, player: int, l: Square, x: Square) returns (f: Move)
    requires IsJumpStep(g, player, l, x)
    ensures IsJumpChain(g, player, l, f) && f[1] == x
  {
    if HasJump(g, player, x) {
      var d :| d in Directions(player) && CanJump(g, player, x, d);
      f := [l, x, Land(x, d)];
    } else {
      f := [l, x];
    }
  }

  /** When l has no jump, the only chain through l is the single jump s -> l. */
  lemma SingleJumpCoversChains(g: Grid, player: int, s: Square, l: Square)
    requires !HasJump(g, player, l)
    ensures forall m :: m == [s, l] <==> ChainVia(g, player, s, l, m)
  {
    forall m | ChainVia(g, player, s, l, m)
      ensures m == [s, l]
    {
    }
  }

  /** Every spliced move is a chain through l. */
  lemma ExtendSound(g: Grid, player: int, s: Square, l: Square, further: seq<Move>)
    requires forall f :: f in further ==> |f| >= 2 && IsJumpChain(g, player, l, f)
    ensures forall m :: m in Extend(s, l, further) ==> ChainVia(g, player, s, l, m)
  {
    var ext := Extend(s, l, further);
    forall i | 0 <= i < |ext|
      ensures ChainVia(g, player, s, l, ext[i])
    {
      assert further[i] in further;
      assert IsJumpStep(g, player, l, further[i][1]);
      assert |ext[i]| == 3 && ext[i][0] == s && ext[i][1] == l && ext[i][2] == further[i][1];
    }
  }

  /** Every chain through l that continues is spliced from some chain of
      `further` when `further` lists every chain from l. */
  lemma ExtendComplete(g: Grid, player: int, s: Square, l: Square, further: seq<Move>)
    requires forall f :: f in further ==> |f| >= 2
    requires forall f :: IsJumpChain(g, player, l, f) ==> f in further
    requires HasJump(g, player, l)
    ensures forall m :: ChainVia(g, player, s, l, m) ==> m in Extend(s, l, further)
  {
    var ext := Extend(s, l, further);
    forall m | ChainVia(g, player, s, l, m)
      ensures m in ext
    {
      assert |m| == 3 && IsJumpStep(g, player, l, m[2]);
      var f := ChainThrough(g, player, l, m[2]);
      assert f in further;
      var i :| 0 <= i < |further| && further[i] == f;
      assert m == [s, l, f[1]];
      assert ext[i] == m;
    }
  }

  /** When every chain from l is listed in `further`, the spliced moves are
      exactly the chains through l. */
  lemma ExtendCoversChains(g: Grid, player: int, s: Square, l: Square, further: seq<Move>)
    requires forall f :: f in further ==> |f| >= 2
    requires forall f :: f in further <==> IsJumpChain(g, player, l, f)
    requires HasJump(g, player, l)
    ensures forall m :: m in Extend(s, l, further) <==> ChainVia(g, player, s, l, m)
  {
    ExtendSound(g, player, s, l, further);
    ExtendComplete(g, player, s, l, further);
  }

  /** getLegalJumpsFrom. Done([]) stands for null, which getLegalJumpsFrom returns
      for an unknown player and when there is no jump; it never returns an
      empty array. With fuel = 0 the call itself overflows the stack. Every
      move returned starts at the origin and visits two or three squares. */
  function JumpsFrom(g: Grid, player: int, row: int, col: int, fuel: nat): (r: Search<seq<Move>>)
    decreases fuel, 0, 0
    ensures r.Done? ==> forall m :: m in r.value ==> 2 <= |m| <= 3 && m[0] == Square(row, col)
  {
    if fuel == 0 then OutOfFuel
    else JumpsAlong(g, player, Square(row, col), Directions(player), fuel - 1)
  }

  /** The direction loop of getLegalJumpsFrom after trying the directions ds
      in order. */
  function JumpsAlong(g: Grid, player: int, s: Square, ds: seq<Dir>, fuel: nat): (r: Search<seq<Move>>)
    decreases fuel, |ds|, 2
    ensures r.Done? ==> forall m :: m in r.value ==> 2 <= |m| <= 3 && m[0] == s
  {
    if ds == [] then Done([])
    else
      match JumpsAlong(g, player, s, ds[..|ds| - 1], fuel)
      case OutOfFuel => OutOfFuel
      case Done(before) => TryJump(g, player, s, ds[|ds| - 1], fuel, before)
  }

  /** One turn of the direction loop, for direction d, after the moves
      `before`: a jump found recurses from its landing square and adds either
      the single jump or one spliced move per continuation; an overflow of
      the recursive call is an overflow of the turn. */
  function TryJump(g: Grid, player: int, s: Square, d: Dir, fuel: nat, before: seq<Move>): (r: Search<seq<Move>>)
    decreases fuel, 0, 1
    ensures r.Done? ==> forall m :: m in r.value ==> m in before || (2 <= |m| <= 3 && m[0] == s)
  {
    if !CanJump(g, player, s, d) then Done(before)
    else
      var l := Land(s, d);
      match JumpsFrom(g, player, l.row, l.col, fuel)
      case OutOfFuel => OutOfFuel
      case Done(further) =>
        if further == [] then Done(before + [[s, l]])
        else Done(before + Extend(s, l, further))
  }

  /** m starts with a jump from s in one of the directions ds and goes on
      as getLegalJumpsFrom builds it. */
  ghost predicate ChainAlong(g: Grid, player: int, s: Square, ds: seq<Dir>, m: Move) {
    exists d :: d in ds && CanJump(g, player, s, d) && ChainVia(g, player, s, Land(s, d), m)
  }

  /** Over all directions of the player, these are the jump chains from s. */
  lemma ChainAlongDirections(g: Grid, player: int, s: Square)
    ensures forall m :: ChainAlong(g, player, s, Directions(player), m) <==> IsJumpChain(g, player, s, m)
  {
    forall m | IsJumpChain(g, player, s, m)
      ensures ChainAlong(g, player, s, Directions(player), m)
    {
      var d :| d in Directions(player) && CanJump(g, player, s, d) && m[1] == Land(s, d);
      assert ChainVia(g, player, s, Land(s, d), m);
    }
  }

  /** Trying direction d after the directions pre adds the chains through d. */
  lemma ChainAlongStep(g: Grid, player: int, s: Square, pre: seq<Dir>, d: Dir, before: seq<Move>, here: seq<Move>)
    requires forall m :: m in before <==> ChainAlong(g, player, s, pre, m)
    requires forall m :: m in here <==> CanJump(g, player, s, d) && ChainVia(g, player, s, Land(s, d), m)
    ensures forall m :: m in before + here <==> ChainAlong(g, player, s, pre + [d], m)
  {
    forall m | m in before + here
      ensures ChainAlong(g, player, s, pre + [d], m)
    {
      if m in before {
        var e :| e in pre && CanJump(g, player, s, e) && ChainVia(g, player, s, Land(s, e), m);
        assert e in pre + [d];
      } else {
        assert d in pre + [d];
      }
    }
    forall m | ChainAlong(g, player, s, pre + [d], m)
      ensures m in before + here
    {
      var e :| e in pre + [d] && CanJump(g, player, s, e) && ChainVia(g, player, s, Land(s, e), m);
      if e in pre {
        assert ChainAlong(g, player, s, pre, m);
      } else {
        assert e == d;
      }
    }
  }

  /** When getLegalJumpsFrom returns, its moves are exactly the jump chains
      from the origin, and it returns null exactly when the origin has no
      jump. */
  lemma {:induction false} JumpsFromChains(g: Grid, player: int, row: int, col: int, fuel: nat)
    requires JumpsFrom(g, player, row, col, fuel).Done?
    ensures forall m :: m in JumpsFrom(g, player, row, col, fuel).value <==> IsJumpChain(g, player, Square(row, col), m)
    ensures JumpsFrom(g, player, row, col, fuel).value == [] <==> !HasJump(g, player, Square(row, col))
    decreases fuel, 0, 0
  {
    JumpsAlongChains(g, player, Square(row, col), Directions(player), fuel - 1);
    ChainAlongDirections(g, player, Square(row, col));
  }

  /** When the direction loop over ds finishes, its moves are exactly the
      chains that start with a jump in one of the directions ds, and it has
      none exactly when no direction of ds has a jump. */
  lemma {:induction false} JumpsAlongChains(g: Grid, player: int, s: Square, ds: seq<Dir>, fuel: nat)
    requires JumpsAlong(g, player, s, ds, fuel).Done?
    ensures forall m :: m in JumpsAlong(g, player, s, ds, fuel).value <==> ChainAlong(g, player, s, ds, m)
    ensures JumpsAlong(g, player, s, ds, fuel).value == [] <==> forall d :: d in ds ==> !CanJump(g, player, s, d)
    decreases fuel, |ds|, 2
  {
    if ds != [] {
      var pre, d := ds[..|ds| - 1], ds[|ds| - 1];
      assert ds == pre + [d];
      JumpsAlongChains(g, player, s, pre, fuel);
      TryJumpChains(g, player, s, d, fuel, pre, JumpsAlong(g, player, s, pre, fuel).value);
    }
  }

  /** The turn for direction d after the directions pre adds exactly the
      chains through d, and leaves the list empty exactly when it was empty
      and d has no jump. */
  lemma {:induction false} TryJumpChains(g: Grid, player: int, s: Square, d: Dir, fuel: nat, pre: seq<Dir>, before: seq<Move>)
    requires forall m :: m in before <==> ChainAlong(g, player, s, pre, m)
    requires TryJump(g, player, s, d, fuel, before).Done?
    ensures forall m :: m in TryJump(g, player, s, d, fuel, before).value <==> ChainAlong(g, player, s, pre + [d], m)
    ensures TryJump(g, player, s, d, fuel, before).value == [] <==> before == [] && !CanJump(g, player, s, d)
    decreases fuel, 0, 1
  {
    if CanJump(g, player, s, d) {
      var l := Land(s, d);
      JumpsFromChains(g, player, l.row, l.col, fuel);
      var further := JumpsFrom(g, player, l.row, l.col, fuel).value;
      if further == [] {
        SingleJumpCoversChains(g, player, s, l);
        ChainAlongStep(g, player, s, pre, d, before, [[s, l]]);
      } else {
        ExtendCoversChains(g, player, s, l, further);
        ChainAlongStep(g, player, s, pre, d, before, Extend(s, l, further));
      }
    } else {
      ChainAlongStep(g, player, s, pre, d, before, []);
      assert before + [] == before;
    }
  }

  // ---------------------------------------------------------------------------
  // All moves of a player

  /** The squares getLegalMoves treats as origins for `player`: those holding
      `player` itself or RED_KING (for RED) or BLACK_KING (for every other
      player value). */
  predicate IsOrigin(g: Grid, player: int, s: Square) {
    OnBoard(s) && (At(g, s) == player || At(g, s) == if player == RED then RED_KING else BLACK_KING)
  }

  /** The first scan of getLegalMoves over the first k squares in row-major
      order: the jumps of every origin square, concatenated. */
  function ScanJumps(g: Grid, player: int, k: int, fuel: nat): (r: Search<seq<Move>>)
    requires 0 <= k <= SIZE * SIZE
  {
    if k == 0 then Done([])
    else
      match ScanJumps(g, player, k - 1, fuel)
      case OutOfFuel => OutOfFuel
      case Done(before) =>
        var s := RowMajor(k - 1);
        if !IsOrigin(g, player, s) then Done(before)
        else
          match JumpsFrom(g, player, s.row, s.col, fuel)
          case OutOfFuel => OutOfFuel
          case Done(jumps) => Done(before + jumps)
  }

  /** The jumps an origin square adds to the first scan once its search has
      returned; nothing for any other square. */
  function JumpsAt(g: Grid, player: int, s: Square, fuel: nat): seq<Move> {
    if !IsOrigin(g, player, s) then []
    else
      match JumpsFrom(g, player, s.row, s.col, fuel)
      case OutOfFuel => []
      case Done(jumps) => jumps
  }

  /** A finished scan of k + 1 squares is the scan of the first k followed by
      what square k adds. */
  lemma ScanJumpsLast(g: Grid, player: int, k: int, fuel: nat)
    requires 0 < k <= SIZE * SIZE && ScanJumps(g, player, k, fuel).Done?
    ensures ScanJumps(g, player, k - 1, fuel).Done?
    ensures IsOrigin(g, player, RowMajor(k - 1)) ==>
      JumpsFrom(g, player, RowMajor(k - 1).row, RowMajor(k - 1).col, fuel).Done?
    ensures ScanJumps(g, player, k, fuel).value ==
      ScanJumps(g, player, k - 1, fuel).value + JumpsAt(g, player, RowMajor(k - 1), fuel)
  {
  }

  /** What a square adds is exactly its jump chains when it is an origin, and
      nothing exactly when it is no origin or has no jump. */
  lemma JumpsAtChains(g: Grid, player: int, s: Square, fuel: nat)
    requires IsOrigin(g, player, s) ==> JumpsFrom(g, player, s.row, s.col, fuel).Done?
    ensures forall m :: m in JumpsAt(g, player, s, fuel) <==> IsOrigin(g, player, s) && IsJumpChain(g, player, s, m)
    ensures JumpsAt(g, player, s, fuel) == [] <==> !IsOrigin(g, player, s) || !HasJump(g, player, s)
  {
    if IsOrigin(g, player, s) {
      JumpsFromChains(g, player, s.row, s.col, fuel);
    }
  }

  /** m is the jump chain of one of the origin squares among the first k in
      row-major order. */
  ghost predicate JumpChainAmong(g: Grid, player: int, k: int, m: Move) {
    exists j :: 0 <= j < k && IsOrigin(g, player, RowMajor(j)) && IsJumpChain(g, player, RowMajor(j), m)
  }

  /** Square k - 1 adds its own chains to those of the squares before it. */
  lemma JumpChainAmongStep(g: Grid, player: int, k: int, before: seq<Move>, here: seq<Move>)
    requires 0 < k
    requires forall m :: m in before <==> JumpChainAmong(g, player, k - 1, m)
    requires forall m :: m in here <==> IsOrigin(g, player, RowMajor(k - 1)) && IsJumpChain(g, player, RowMajor(k - 1), m)
    ensures forall m :: m in before + here <==> JumpChainAmong(g, player, k, m)
  {
    forall m | m in before + here
      ensures JumpChainAmong(g, player, k, m)
    {
      if m in before {
        var j :| 0 <= j < k - 1 && IsOrigin(g, player, RowMajor(j)) && IsJumpChain(g, player, RowMajor(j), m);
        assert 0 <= j < k;
      } else {
        assert IsOrigin(g, player, RowMajor(k - 1)) && IsJumpChain(g, player, RowMajor(k - 1), m);
      }
    }
    forall m | JumpChainAmong(g, player, k, m)
      ensures m in before + here
    {
      var j :| 0 <= j < k && IsOrigin(g, player, RowMajor(j)) && IsJumpChain(g, player, RowMajor(j), m);
      if j == k - 1 {
        assert m in here;
      } else {
        assert JumpChainAmong(g, player, k - 1, m);
      }
    }
  }

  /** When the first scan finishes, its moves are exactly the jump chains
      from the origin squares among the first k. */
  lemma {:induction false} ScanJumpsChains(g: Grid, player: int, k: int, fuel: nat)
    requires 0 <= k <= SIZE * SIZE && ScanJumps(g, player, k, fuel).Done?
    ensures forall m :: m in ScanJumps(g, player, k, fuel).value <==> JumpChainAmong(g, player, k, m)
    decreases k
  {
    if k > 0 {
      ScanJumpsLast(g, player, k, fuel);
      ScanJumpsChains(g, player, k - 1, fuel);
      JumpsAtChains(g, player, RowMajor(k - 1), fuel);
      JumpChainAmongStep(g, player, k, ScanJumps(g, player, k - 1, fuel).value, JumpsAt(g, player, RowMajor(k - 1), fuel));
    } else {
      assert ScanJumps(g, player, k, fuel).value == [];
    }
  }

  /** A finished first scan finds nothing exactly when none of the origin
      squares among the first k has a jump. */
  lemma {:induction false} ScanJumpsEmpty(g: Grid, player: int, k: int, fuel: nat)
    requires 0 <= k <= SIZE * SIZE && ScanJumps(g, player, k, fuel).Done?
    ensures ScanJumps(g, player, k, fuel).value == [] <==>
      forall j :: 0 <= j < k && IsOrigin(g, player, RowMajor(j)) ==> !HasJump(g, player, RowMajor(j))
    ensures forall j :: 0 <= j < k && IsOrigin(g, player, RowMajor(j)) && HasJump(g, player, RowMajor(j)) ==>
      ScanJumps(g, player, k, fuel).value != []
  {
    if k > 0 {
      ScanJumpsLast(g, player, k, fuel);
      ScanJumpsEmpty(g, player, k - 1, fuel);
      var before := ScanJumps(g, player, k - 1, fuel).value;
      var s := RowMajor(k - 1);
      var here := JumpsAt(g, player, s, fuel);
      JumpsAtChains(g, player, s, fuel);
      if before + here == [] {
        assert before == [] && here == [];
        forall j | 0 <= j < k && IsOrigin(g, player, RowMajor(j))
          ensures !HasJump(g, player, RowMajor(j))
        {
          if j == k - 1 {
            assert RowMajor(j) == s;
          }
        }
      }
      if forall j :: 0 <= j < k && IsOrigin(g, player, RowMajor(j)) ==> !HasJump(g, player, RowMajor(j)) {
        assert before == [] && here == [];
      }
    } else {
      assert ScanJumps(g, player, k, fuel) == Done([]);
    }
  }

  /** What the second scan of getLegalMoves adds for the square s: the
      regular moves from s when it is an origin and getLegalRegularMovesFrom
      returns an array, nothing otherwise. */
  function RegularHere(g: Grid, player: int, s: Square): seq<Move> {
    if !IsOrigin(g, player, s) then []
    else
      match RegularMovesFrom(g, player, s.row, s.col)
      case None => []
      case Some(steps) => steps
  }

  /** A square adds exactly its regular moves when it is an origin. */
  lemma RegularHereMoves(g: Grid, player: int, s: Square)
    ensures forall m :: m in RegularHere(g, player, s) <==> IsOrigin(g, player, s) && IsRegularMove(g, player, s, m)
  {
    if IsOrigin(g, player, s) && KnownPlayer(player) {
      RegularMovesFromMoves(g, player, s.row, s.col);
    }
  }

  /** The second scan of getLegalMoves over the first k squares: the regular
      moves of every origin square, concatenated. */
  function ScanRegular(g: Grid, player: int, k: int): (ms: seq<Move>)
    requires 0 <= k <= SIZE * SIZE
  {
    if k == 0 then [] else ScanRegular(g, player, k - 1) + RegularHere(g, player, RowMajor(k - 1))
  }

  /** m is a regular move of one of the origin squares among the first k in
      row-major order. */
  ghost predicate RegularMoveAmong(g: Grid, player: int, k: int, m: Move) {
    exists j :: 0 <= j < k && IsOrigin(g, player, RowMajor(j)) && IsRegularMove(g, player, RowMajor(j), m)
  }

  /** Square k - 1 adds its own regular moves to those of the squares before
      it. */
  lemma RegularMoveAmongStep(g: Grid, player: int, k: int, before: seq<Move>, here: seq<Move>)
    requires 0 < k
    requires forall m :: m in before <==> RegularMoveAmong(g, player, k - 1, m)
    requires forall m :: m in here <==> IsOrigin(g, player, RowMajor(k - 1)) && IsRegularMove(g, player, RowMajor(k - 1), m)
    ensures forall m :: m in before + here <==> RegularMoveAmong(g, player, k, m)
  {
    forall m | m in before + here
      ensures RegularMoveAmong(g, player, k, m)
    {
      if m in before {
        var j :| 0 <= j < k - 1 && IsOrigin(g, player, RowMajor(j)) && IsRegularMove(g, player, RowMajor(j), m);
        assert 0 <= j < k;
      } else {
        assert IsOrigin(g, player, RowMajor(k - 1)) && IsRegularMove(g, player, RowMajor(k - 1), m);
      }
    }
    forall m | RegularMoveAmong(g, player, k, m)
      ensures m in before + here
    {
      var j :| 0 <= j < k && IsOrigin(g, player, RowMajor(j)) && IsRegularMove(g, player, RowMajor(j), m);
      if j == k - 1 {
        assert m in here;
      } else {
        assert RegularMoveAmong(g, player, k - 1, m);
      }
    }
  }

  /** The moves of the second scan are exactly the regular moves from the
      origin squares among the first k. */
  lemma {:induction false} ScanRegularMoves(g: Grid, player: int, k: int)
    requires 0 <= k <= SIZE * SIZE
    ensures forall m :: m in ScanRegular(g, player, k) <==> RegularMoveAmong(g, player, k, m)
  {
    if k > 0 {
      ScanRegularMoves(g, player, k - 1);
      RegularHereMoves(g, player, RowMajor(k - 1));
      RegularMoveAmongStep(g, player, k, ScanRegular(g, player, k - 1), RegularHere(g, player, RowMajor(k - 1)));
    } else {
      assert ScanRegular(g, player, k) == [];
    }
  }

  // ---------------------------------------------------------------------------
  // The two board traversals as loops over squares

  /** The contributions `here` makes for the first k squares in row-major
      order, concatenated: the shape of the second traversal. */
  function ScanSquares(here: Square -> seq<Move>, k: int): seq<Move>
    requires 0 <= k <= SIZE * SIZE
  {
    if k == 0 then [] else ScanSquares(here, k - 1) + here(RowMajor(k - 1))
  }

  /** The same for contributions that may overflow the stack, the shape of the
      first traversal: the first overflow ends the scan. */
  function ScanSearches(here: Square -> Search<seq<Move>>, k: int): Search<seq<Move>>
    requires 0 <= k <= SIZE * SIZE
  {
    if k == 0 then Done([])
    else
      match ScanSearches(here, k - 1)
      case OutOfFuel => OutOfFuel
      case Done(before) =>
        match here(RowMajor(k - 1))
        case OutOfFuel => OutOfFuel
        case Done(found) => Done(before + found)
  }

  /** What the first traversal gets from the square s: the search from s when
      it is an origin, nothing otherwise. */
  function JumpsHere(g: Grid, player: int, fuel: nat, s: Square): Search<seq<Move>> {
    if IsOrigin(g, player, s) then JumpsFrom(g, player, s.row, s.col, fuel) else Done([])
  }

  /** `here` gives, for every square, what the second traversal adds there.
      (The loops know `here` only through this property.) */
  ghost predicate IsRegularHere(here: Square -> seq<Move>, g: Grid, player: int) {
    forall s {:trigger RegularHere(g, player, s)} :: here(s) == RegularHere(g, player, s)
  }

  /** `here` gives, for every square, what the first traversal gets there. */
  ghost predicate IsJumpsHere(here: Square -> Search<seq<Move>>, g: Grid, player: int, fuel: nat) {
    forall s {:trigger JumpsHere(g, player, fuel, s)} :: here(s) == JumpsHere(g, player, fuel, s)
  }

  /** Once a search of the traversal has run out of stack, the rest of the
      traversal does too. */
  lemma {:induction false} ScanSearchesOverflow(here: Square -> Search<seq<Move>>, k: int, n: int)
    requires 0 <= k <= n <= SIZE * SIZE && ScanSearches(here, k).OutOfFuel?
    ensures ScanSearches(here, n).OutOfFuel?
    decreases n
  {
    if k < n {
      ScanSearchesOverflow(here, k, n - 1);
    }
  }

  /** Scanning the squares with their regular moves is the second scan. */
  lemma {:induction false} ScanRegularBySquares(here: Square -> seq<Move>, g: Grid, player: int, k: int)
    requires IsRegularHere(here, g, player) && 0 <= k <= SIZE * SIZE
    ensures ScanSquares(here, k) == ScanRegular(g, player, k)
  {
    if k > 0 {
      ScanRegularBySquares(here, g, player, k - 1);
      assert here(RowMajor(k - 1)) == RegularHere(g, player, RowMajor(k - 1));
    }
  }

  /** Scanning the squares with their searches is the first scan. */
  lemma {:induction false} ScanJumpsBySquares(here: Square -> Search<seq<Move>>, g: Grid, player: int, fuel: nat, k: int)
    requires IsJumpsHere(here, g, player, fuel) && 0 <= k <= SIZE * SIZE
    ensures ScanSearches(here, k) == ScanJumps(g, player, k, fuel)
  {
    if k > 0 {
      ScanJumpsBySquares(here, g, player, fuel, k - 1);
      var s := RowMajor(k - 1);
      assert here(s) == JumpsHere(g, player, fuel, s);
      if ScanSearches(here, k - 1).Done? && !IsOrigin(g, player, s) {
        var before := ScanSearches(here, k - 1).value;
        assert before + [] == before;
      }
    }
  }

  /** getLegalMoves: None (null) for an unknown player or when there is no
      move at all; the jumps of all origins when there is any jump (forced
      capture); otherwise the regular moves of all origins. */
  function LegalMoves(g: Grid, player: int, fuel: nat): (r: Search<Option<seq<Move>>>)
    ensures !KnownPlayer(player) ==> r == Done(None)
    ensures r.Done? && r.value.Some? ==> r.value.value != []
  {
    if !KnownPlayer(player) then Done(None)
    else
      match ScanJumps(g, player, SIZE * SIZE, fuel)
      case OutOfFuel => OutOfFuel
      case Done(jumps) =>
        if jumps != [] then Done(Some(jumps))
        else
          var steps := ScanRegular(g, player, SIZE * SIZE);
          if steps == [] then Done(None) else Done(Some(steps))
  }
}
