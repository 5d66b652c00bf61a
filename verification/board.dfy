/** Square codes, coordinates and the 8x8 grid that CheckersData keeps in its
    `board` field, with the two board queries that only look at one square. */
module Board {

  // Square codes; RED and BLACK (and, for getLegalMoves, the two king codes)
  // also stand for the players.
  const EMPTY := 0
  const RED := 1
  const RED_KING := 2
  const BLACK := 3
  const BLACK_KING := 4

  /** board.length: the board is SIZE x SIZE. */
  const SIZE := 8

  /** Stands for a Java reference that may be null. */
  datatype Option<T> = None | Some(value: T)

  /** Result of a computation whose recursion depth is bounded by a fuel
      argument; OutOfFuel stands for the stack overflow that the unbounded
      recursion of getLegalJumpsFrom runs into. */
  datatype Search<T> = Done(value: T) | OutOfFuel

  /** A (row, col) coordinate; rows and columns are unbounded integers. */
  datatype Square = Square(row: int, col: int)

  /** A CheckersMove: the sequence of squares it visits, first the origin. */
  type Move = seq<Square>

  predicate IsGrid(g: seq<seq<int>>) {
    |g| == SIZE && forall r :: 0 <= r < SIZE ==> |g[r]| == SIZE
  }

  /** A value of the board field: g[r][c] is the content of row r, column c. */
  type Grid = g: seq<seq<int>> | IsGrid(g) witness seq(SIZE, _ => seq(SIZE, _ => EMPTY))

  /** Two grids with the same content everywhere are the same grid. */
  lemma GridsEqual(a: Grid, b: Grid)
    requires forall r, c :: 0 <= r < SIZE && 0 <= c < SIZE ==> a[r][c] == b[r][c]
    ensures a == b
  {
    forall r | 0 <= r < SIZE
      ensures a[r] == b[r]
    {
    }
  }

  /** isValidSquare: the square lies on the board. */
  predicate IsValidSquare(row: int, col: int) {
    row >= 0 && row < SIZE && col >= 0 && col < SIZE
  }

  predicate OnBoard(s: Square) {
    IsValidSquare(s.row, s.col)
  }

  function At(g: Grid, s: Square): int
    requires OnBoard(s)
  {
    g[s.row][s.col]
  }

  /** The square visited at step k of a row-major scan of the board, the order
      in which getLegalMoves visits origin squares. */
  function RowMajor(k: nat): Square
    decreases k
  {
    if k < SIZE then Square(0, k)
    else
      var s := RowMajor(k - SIZE);
      Square(s.row + 1, s.col)
  }

  /** Step k of the scan is row k / SIZE, column k % SIZE. */
  lemma {:induction false} RowMajorDivMod(k: nat)
    ensures RowMajor(k) == Square(k / SIZE, k % SIZE)
    decreases k
  {
    if k >= SIZE {
      RowMajorDivMod(k - SIZE);
    }
  }

  /** The first SIZE * SIZE steps of the scan stay on the board. */
  lemma RowMajorOnBoard(k: nat)
    requires k < SIZE * SIZE
    ensures OnBoard(RowMajor(k))
  {
    RowMajorDivMod(k);
  }

  /** The row-major scan of steps 0 .. 63 visits exactly the valid squares,
      each one once. */
  lemma RowMajorScansBoard(row: int, col: int)
    ensures IsValidSquare(row, col) <==>
      exists k :: 0 <= k < SIZE * SIZE && RowMajor(k) == Square(row, col)
    ensures forall j, k :: 0 <= j < SIZE * SIZE && 0 <= k < SIZE * SIZE && RowMajor(j) == RowMajor(k) ==> j == k
  {
    if IsValidSquare(row, col) {
      var k := row * SIZE + col;
      RowMajorDivMod(k);
      assert RowMajor(k) == Square(row, col);
    }
    forall k | 0 <= k < SIZE * SIZE && RowMajor(k) == Square(row, col)
      ensures IsValidSquare(row, col)
    {
      RowMajorDivMod(k);
    }
    forall j, k | 0 <= j < SIZE * SIZE && 0 <= k < SIZE * SIZE && RowMajor(j) == RowMajor(k)
      ensures j == k
    {
      RowMajorDivMod(j);
      RowMajorDivMod(k);
      assert j == (j / SIZE) * SIZE + j % SIZE;
      assert k == (k / SIZE) * SIZE + k % SIZE;
    }
  }

  /** Step SIZE * row + col of the row-major scan is the square (row, col),
      and the scan of a row ends where the next row begins. */
  lemma {:induction false} RowMajorStep(row: int, col: int)
    requires IsValidSquare(row, col)
    ensures RowMajor(SIZE * row + col) == Square(row, col)
    ensures SIZE * row + col < SIZE * SIZE
    ensures SIZE * row + SIZE == SIZE * (row + 1)
    decreases row
  {
    if row > 0 {
      RowMajorStep(row - 1, col);
      assert SIZE * row + col - SIZE == SIZE * (row - 1) + col;
    }
  }

  /** The two sides of the game, and "no side" for an empty or unknown code. */
  datatype Side = Red | Black | Nobody

  function SideOf(piece: int): Side {
    if piece == RED || piece == RED_KING then Red
    else if piece == BLACK || piece == BLACK_KING then Black
    else Nobody
  }

  /** The side a player argument plays: RED and RED_KING play red, every other
      value (including values that are not players at all) plays black. */
  function PlayerSide(player: int): Side {
    if player == RED || player == RED_KING then Red else Black
  }

  /** isOpponent: the square is on the board and holds a piece of the side
      that `player` does not play. */
  function IsOpponent(g: Grid, player: int, row: int, col: int): (r: bool)
    ensures r <==> IsValidSquare(row, col) &&
                   SideOf(g[row][col]) != Nobody && SideOf(g[row][col]) != PlayerSide(player)
  {
    if !IsValidSquare(row, col) then false
    else if player == RED || player == RED_KING then g[row][col] == BLACK || g[row][col] == BLACK_KING
    else g[row][col] == RED || g[row][col] == RED_KING
  }

  /** isOpponent reads the player argument by side only: a man code and its
      king code give the same answer everywhere. */
  lemma OpponentBySide(g: Grid, row: int, col: int)
    ensures IsOpponent(g, RED, row, col) == IsOpponent(g, RED_KING, row, col)
    ensures IsOpponent(g, BLACK, row, col) == IsOpponent(g, BLACK_KING, row, col)
  {
  }

  /** Being an opponent is symmetric between two occupied squares. */
  lemma OpponentSymmetric(g: Grid, r1: int, c1: int, r2: int, c2: int)
    requires IsValidSquare(r1, c1) && SideOf(g[r1][c1]) != Nobody
    requires IsOpponent(g, g[r1][c1], r2, c2)
    ensures IsOpponent(g, g[r2][c2], r1, c1)
  {
  }

  /** The content that setUpGame writes to square (r, c): RED on the dark
      squares of rows 0-2, BLACK on the dark squares of rows 5-7. */
  function InitialPiece(r: int, c: int): int {
    if r % 2 == c % 2 then
      if r < 3 then RED else if r > 4 then BLACK else EMPTY
    else
      EMPTY
  }

  function InitialGrid(): (g: Grid)
    ensures forall r, c :: 0 <= r < SIZE && 0 <= c < SIZE ==> g[r][c] == InitialPiece(r, c)
  {
    seq(SIZE, r => seq(SIZE, c => InitialPiece(r, c)))
  }

  /** Every piece stands on a square with row % 2 == col % 2. */
  ghost predicate DarkOnly(g: Grid) {
    forall r, c :: 0 <= r < SIZE && 0 <= c < SIZE && g[r][c] != EMPTY ==> r % 2 == c % 2
  }
}
