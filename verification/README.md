# CheckersData: a verified model of the checkers rules engine

`CheckersData` keeps one 8x8 board of square codes (EMPTY = 0, RED = 1,
RED_KING = 2, BLACK = 3, BLACK_KING = 4). The model covers three groups of
operations:

- the mutators: `setUpGame`, the single-step `makeMove(fromRow, fromCol, toRow, toCol)`
  and the multi-step `makeMove(move)`;
- the queries: `pieceAt`, `isValidSquare` and `isOpponent`;
- the move generators: `getLegalRegularMovesFrom`, the recursive
  `getLegalJumpsFrom`, and `getLegalMoves` with its forced-capture rule.

The project is in two layers.

- **Board values.** Modules `Board`, `Apply` and `MoveGen` describe a board
  as a value (`Grid`, a sequence of 8 rows of 8 codes). Every operation is a
  function of that value. A `CheckersMove` is a `Move`: the sequence of
  squares it visits, with the origin first.
- **The object.** Module `Engine` holds the class `CheckersData`. Its
  `board` is an `array2<int>`, and its methods update it in place or scan it
  with loops, as the Java methods do. Each method is proved equal to the
  corresponding function, applied to `Snapshot()`, the array's contents as a
  board value. The generator methods have no `modifies` clause, so they
  cannot change the board.

Module `MoveGenFacts` proves what the generators promise: the forced-capture
rule, completeness of the moves found, and when the jump search returns.
Module `StartPosition` proves facts about the position `setUpGame` creates.

## How null, recursion and quirks are modelled

**Null results.**
- `getLegalRegularMovesFrom` and `getLegalMoves` return `Option`. `None` is
  null.
- `getLegalJumpsFrom` never returns an empty array, so its null is the
  empty sequence.

**The recursion bound.** `getLegalJumpsFrom` recurses on an unchanged board.
The model bounds its call depth with a `fuel` argument, and
`Search.OutOfFuel` stands for the `StackOverflowError` the unbounded
recursion runs into.
- For RED and BLACK, five levels always suffice (`ManJumpsComplete`,
  `ManLegalMovesComplete`).
- For a king code, a jump onto a square that has a jump of its own
  overflows whatever the depth (`KingDoubleJumpOverflows`). The king bounces
  back over the same piece between two empty squares.
- A king whose jumps all land on squares without a jump does return
  (`KingSingleJumpsComplete`).

**Behaviour kept as the code writes it.**
- **Setup colours.** `setUpGame` puts RED on rows 0-2 and BLACK on rows 5-7.
  RED moves towards row 0 and BLACK towards row 7, so in the start position
  no player value has any move (`StartPositionHasNoMoves`). The method's
  doc comment describes the opposite layout; the model follows the code.
- **Spliced jumps.** A spliced jump keeps only the second square of each
  continuation. Every jump move therefore has two or three squares, and
  sibling continuations can repeat a move.
- **The player picks the directions.** The generators take their directions
  from the `player` argument, not from the piece on the square.
- **Origins.** Origin squares are those holding `player`, or `RED_KING` for
  RED and `BLACK_KING` for every other value.
- **Promotion.** Promotion happens at every single step of a multi-step move.

## Model

| member | source | states |
|---|---|---|
| Board.IsValidSquare | edu/iastate/cs472/proj2/CheckersData.java:210-212 | the square is on the board exactly when 0 <= row < 8 and 0 <= col < 8 |
| Apply.ApplyMove | edu/iastate/cs472/proj2/CheckersData.java:114-118 | the single steps m[0] -> m[1], ..., m[n-2] -> m[n-1] in order; a move of fewer than two squares leaves the board as it is |
| MoveGen.CanStep | edu/iastate/cs472/proj2/CheckersData.java:258 | the neighbour in direction d is on the board and EMPTY |
| MoveGen.CanJump | edu/iastate/cs472/proj2/CheckersData.java:306-307 | the landing square two steps away in direction d is on the board and EMPTY, and the square jumped over holds an opponent of the player |
| MoveGen.IsOrigin | edu/iastate/cs472/proj2/CheckersData.java:170 | the square is on the board and holds the player code, or RED_KING for RED and BLACK_KING for every other player value (the same test at line 187) |
| MoveGen.ScanJumps | edu/iastate/cs472/proj2/CheckersData.java:168-178 | the first traversal over the first k squares in row-major order: the jumps of each origin square appended in turn; the first search that overflows ends the scan |
| MoveGen.ScanRegular | edu/iastate/cs472/proj2/CheckersData.java:185-195 | the second traversal over the first k squares in row-major order: the one-step moves of each origin square appended in turn |
| Board.IsOpponent | edu/iastate/cs472/proj2/CheckersData.java:224-234 | true exactly when (row, col) is on the board and holds a piece of the side the player does not play; RED and RED_KING play red, every other value plays black |
| Board.OpponentBySide | edu/iastate/cs472/proj2/CheckersData.java:229-233 | a man code and its king code get the same answer on every square |
| Board.OpponentSymmetric | edu/iastate/cs472/proj2/CheckersData.java:224-234 | if the piece on one square sees a second square as an opponent, the piece there sees the first square as an opponent |
| Board.RowMajorScansBoard | edu/iastate/cs472/proj2/CheckersData.java:168-169 | the 64 steps of the nested row/column loops visit exactly the squares isValidSquare accepts, each once |
| Board.RowMajorDivMod | edu/iastate/cs472/proj2/CheckersData.java:168-169 | step k of the scan is row k / 8, column k % 8 |
| Board.InitialGrid | edu/iastate/cs472/proj2/CheckersData.java:79-95 | the start position: RED on squares with r % 2 == c % 2 in rows 0-2, BLACK on those in rows 5-7, EMPTY everywhere else |
| Apply.Promote | edu/iastate/cs472/proj2/CheckersData.java:141-145 | the content changes exactly when RED stops on row 0 or BLACK on row 7, and the piece keeps its side |
| Apply.ApplyStep | edu/iastate/cs472/proj2/CheckersData.java:133-146 | the source square becomes EMPTY; the destination gets the source's old content, promoted; the middle square becomes EMPTY when both deltas are 2 in absolute value; every other square is unchanged |
| Apply.ApplyShortMove | edu/iastate/cs472/proj2/CheckersData.java:114-118 | a move of fewer than two squares leaves the board unchanged; a move of two squares is one single step |
| Apply.ApplyMoveFirstStep | edu/iastate/cs472/proj2/CheckersData.java:114-118 | applying a move is its first single step followed by the rest of the move |
| Apply.ApplyMoveFrame | edu/iastate/cs472/proj2/CheckersData.java:114-118 | a square that is neither on the move nor between the two ends of one of its jumps keeps its content |
| Apply.StepKeepsDark | edu/iastate/cs472/proj2/CheckersData.java:133-139 | a single step onto a square with row % 2 == col % 2 keeps every piece on such squares |
| Apply.MoveKeepsDark | edu/iastate/cs472/proj2/CheckersData.java:114-118 | a move whose squares all have row % 2 == col % 2 keeps every piece on such squares |
| MoveGen.Directions | edu/iastate/cs472/proj2/CheckersData.java:242-253 | two directions for RED and BLACK, four for either king code, none for any other value |
| MoveGen.DirectionsDiagonal | edu/iastate/cs472/proj2/CheckersData.java:242-250 | every direction is diagonal; for RED the directions are exactly those with row delta -1, for BLACK those with +1, and for a king code all four |
| MoveGen.RegularAlong | edu/iastate/cs472/proj2/CheckersData.java:255-261 | the direction loop adds at most one move per direction |
| MoveGen.RegularAlongMoves | edu/iastate/cs472/proj2/CheckersData.java:255-261 | the loop collects exactly the two-square moves to a neighbour in a direction tried that is on the board and EMPTY |
| MoveGen.RegularMovesFrom | edu/iastate/cs472/proj2/CheckersData.java:236-264 | the result is null exactly for a player outside RED, RED_KING, BLACK, BLACK_KING |
| MoveGen.RegularMovesFromMoves | edu/iastate/cs472/proj2/CheckersData.java:236-264 | for a known player the moves are exactly the one-step moves onto an EMPTY on-board square in the player's directions, at most 2 for a man and 4 for a king |
| MoveGen.Extend | edu/iastate/cs472/proj2/CheckersData.java:316-320 | one move per continuation: the jump s -> l followed by the continuation's second square |
| MoveGen.ChainThrough | edu/iastate/cs472/proj2/CheckersData.java:313-318 | every jump from the landing square begins some jump chain from it |
| MoveGen.SingleJumpCoversChains | edu/iastate/cs472/proj2/CheckersData.java:321-323 | when the landing square has no jump, the single jump is the only chain through it |
| MoveGen.ExtendSound | edu/iastate/cs472/proj2/CheckersData.java:314-320 | every spliced move is a chain through the landing square |
| MoveGen.ExtendComplete | edu/iastate/cs472/proj2/CheckersData.java:314-320 | every chain through the landing square that goes on is among the spliced moves |
| MoveGen.ExtendCoversChains | edu/iastate/cs472/proj2/CheckersData.java:313-323 | the spliced moves are exactly the chains through the landing square |
| MoveGen.JumpsFrom | edu/iastate/cs472/proj2/CheckersData.java:280-333 | every returned move starts at (row, col) and has two or three squares |
| MoveGen.JumpsAlong | edu/iastate/cs472/proj2/CheckersData.java:299-326 | after any prefix of the directions, every collected move starts at the origin and has two or three squares |
| MoveGen.TryJump | edu/iastate/cs472/proj2/CheckersData.java:306-324 | one loop turn keeps the earlier moves and adds only moves of two or three squares starting at the origin |
| MoveGen.ChainAlongDirections | edu/iastate/cs472/proj2/CheckersData.java:286-307 | over all the player's directions, the chains starting with a legal jump are exactly the jump chains from the square |
| MoveGen.JumpsFromChains | edu/iastate/cs472/proj2/CheckersData.java:280-333 | when the search returns, its moves are exactly the jump chains from the origin, and it returns null exactly when the origin has no jump |
| MoveGen.JumpsAlongChains | edu/iastate/cs472/proj2/CheckersData.java:299-326 | after directions ds, the moves are exactly the chains starting with a jump in ds, and none exactly when no direction of ds has a jump |
| MoveGen.TryJumpChains | edu/iastate/cs472/proj2/CheckersData.java:306-324 | the turn for direction d adds exactly the chains through d, and leaves the list empty exactly when it was empty and d has no jump |
| MoveGen.ScanJumpsLast | edu/iastate/cs472/proj2/CheckersData.java:168-178 | a finished first scan of k + 1 squares is the scan of k squares followed by what square k adds |
| MoveGen.JumpsAtChains | edu/iastate/cs472/proj2/CheckersData.java:170-175 | a square adds exactly its jump chains when it is an origin, and nothing when it is not an origin or has no jump |
| MoveGen.ScanJumpsChains | edu/iastate/cs472/proj2/CheckersData.java:168-178 | the moves of a finished first scan are exactly the jump chains of the origin squares scanned |
| MoveGen.ScanJumpsEmpty | edu/iastate/cs472/proj2/CheckersData.java:165-178 | a finished first scan is empty exactly when no origin square scanned has a jump, which is when jumpAvailable stays false |
| MoveGen.RegularHereMoves | edu/iastate/cs472/proj2/CheckersData.java:187-192 | a square adds exactly its one-step moves when it is an origin |
| MoveGen.ScanRegularMoves | edu/iastate/cs472/proj2/CheckersData.java:185-195 | the moves of the second scan are exactly the one-step moves of the origin squares scanned |
| MoveGen.LegalMoves | edu/iastate/cs472/proj2/CheckersData.java:159-203 | null for a player outside the four codes; a non-null result is never empty |
| MoveGenFacts.JumpsFromFuel | edu/iastate/cs472/proj2/CheckersData.java:313 | once the search returns for some stack depth, any larger depth gives the same result |
| MoveGenFacts.JumpsAlongFuel | edu/iastate/cs472/proj2/CheckersData.java:299-326 | the same for the direction loop |
| MoveGenFacts.AlongDone | edu/iastate/cs472/proj2/CheckersData.java:299-326 | the direction loop returns when the search from every landing square returns |
| MoveGenFacts.NoJumpDone | edu/iastate/cs472/proj2/CheckersData.java:328-329 | a search from a square without a jump returns null |
| MoveGenFacts.ManJumpsComplete | edu/iastate/cs472/proj2/CheckersData.java:286-291 | for RED and BLACK the search always returns, needing at most five levels |
| MoveGenFacts.OverflowInDirection | edu/iastate/cs472/proj2/CheckersData.java:306-313 | a jump whose own search overflows makes the whole direction loop overflow |
| MoveGenFacts.JumpsFromUnfold | edu/iastate/cs472/proj2/CheckersData.java:280-299 | with stack left, the search is its direction loop over the player's directions |
| MoveGenFacts.KingBounce | edu/iastate/cs472/proj2/CheckersData.java:313 | a king code's search from an empty square with a jump never returns: the jump back lands on that square again |
| MoveGenFacts.KingDoubleJumpOverflows | edu/iastate/cs472/proj2/CheckersData.java:292-313 | for a king code, a jump onto a square that has a jump of its own makes the search overflow whatever the stack depth |
| MoveGenFacts.KingSingleJumpsComplete | edu/iastate/cs472/proj2/CheckersData.java:292-324 | for a king code whose every jump lands on a square without a jump, the search returns with two levels |
| MoveGenFacts.ScanJumpsFuel | edu/iastate/cs472/proj2/CheckersData.java:168-178 | once the first scan returns, a larger stack depth gives the same result |
| MoveGenFacts.ScanOverflowPersists | edu/iastate/cs472/proj2/CheckersData.java:168-178 | an overflow at any origin square makes the rest of the scan, and getLegalMoves, overflow |
| MoveGenFacts.LegalMovesFuel | edu/iastate/cs472/proj2/CheckersData.java:159-203 | once getLegalMoves returns, a larger stack depth gives the same result |
| MoveGenFacts.ManLegalMovesComplete | edu/iastate/cs472/proj2/CheckersData.java:159-203 | for RED and BLACK, getLegalMoves always returns |
| MoveGenFacts.NoJumpScanDone | edu/iastate/cs472/proj2/CheckersData.java:168-178 | when no origin square has a jump, the first scan returns an empty list |
| MoveGenFacts.JumpChainShape | edu/iastate/cs472/proj2/CheckersData.java:306-318 | every square of a jump chain is on the board, and each step moves two rows and two columns, so makeMove removes the piece jumped over |
| MoveGenFacts.JumpScanReturned | edu/iastate/cs472/proj2/CheckersData.java:180-182 | when some origin square has a jump, getLegalMoves returns the non-empty result of the first scan |
| MoveGenFacts.ForcedCaptureChains | edu/iastate/cs472/proj2/CheckersData.java:165-182 | when some origin square has a jump, the moves returned are exactly the jump chains of all origin squares |
| MoveGenFacts.ForcedCapture | edu/iastate/cs472/proj2/CheckersData.java:165-182 | the same, and every move returned is a jump at every step: no one-step move is offered |
| MoveGenFacts.StepScanReturned | edu/iastate/cs472/proj2/CheckersData.java:184-202 | without any jump, getLegalMoves returns the second scan's moves, or null when there are none |
| MoveGenFacts.AnyStepFound | edu/iastate/cs472/proj2/CheckersData.java:185-195 | the second scan finds a move exactly when some origin square has a free one-step move |
| MoveGenFacts.NoCaptureMeansSteps | edu/iastate/cs472/proj2/CheckersData.java:184-202 | without any jump, getLegalMoves returns null exactly when no origin square can step, and otherwise exactly the one-step moves of all origin squares |
| MoveGenFacts.NoCaptureComplete | edu/iastate/cs472/proj2/CheckersData.java:159-203 | with no jump anywhere, getLegalMoves returns |
| StartPosition.InitialDarkOnly | edu/iastate/cs472/proj2/CheckersData.java:79-95 | setUpGame puts pieces only on squares with row % 2 == col % 2 |
| StartPosition.StartSquareBlocked | edu/iastate/cs472/proj2/CheckersData.java:83-86 | in the start position no origin square of any player can step or jump |
| StartPosition.StartPositionHasNoMoves | edu/iastate/cs472/proj2/CheckersData.java:83-86 | getLegalMoves on the start position returns null for every player value |
| StartPosition.LegalMoveKeepsDark | edu/iastate/cs472/proj2/CheckersData.java:159-203 | every move getLegalMoves offers stays on the board, and making it keeps every piece on squares with row % 2 == col % 2 |
| Engine.CheckersData.constructor | edu/iastate/cs472/proj2/CheckersData.java:35-38 | a new object has a fresh 8x8 board in the start position |
| Engine.CheckersData.SetUpGame | edu/iastate/cs472/proj2/CheckersData.java:79-95 | after the nested loops, the array holds the start position |
| Engine.CheckersData.PieceAt | edu/iastate/cs472/proj2/CheckersData.java:101-103 | the content of the square on the board |
| Engine.CheckersData.MakeStep | edu/iastate/cs472/proj2/CheckersData.java:133-146 | the array afterwards holds ApplyStep of what it held before |
| Engine.CheckersData.MakeMove | edu/iastate/cs472/proj2/CheckersData.java:114-118 | after the loop over consecutive pairs, the array holds ApplyMove of what it held before |
| Engine.CheckersData.IsOpponent | edu/iastate/cs472/proj2/CheckersData.java:224-234 | isOpponent on the array agrees with Board.IsOpponent on its contents |
| Engine.CheckersData.DirectionsFor | edu/iastate/cs472/proj2/CheckersData.java:242-253 | the direction arrays are built exactly for the four known codes, and are the player's directions |
| Engine.CheckersData.GetLegalRegularMovesFrom | edu/iastate/cs472/proj2/CheckersData.java:236-264 | the direction loop returns RegularMovesFrom of the board |
| Engine.CheckersData.AddSpliced | edu/iastate/cs472/proj2/CheckersData.java:316-320 | the clone-and-addMove loop appends the spliced moves of all continuations, in order |
| Engine.CheckersData.GetLegalJumpsFrom | edu/iastate/cs472/proj2/CheckersData.java:280-333 | the method returns JumpsFrom of the board |
| Engine.CheckersData.CollectJumps | edu/iastate/cs472/proj2/CheckersData.java:299-326 | the direction loop returns JumpsAlong of the board |
| Engine.CheckersData.JumpOpen | edu/iastate/cs472/proj2/CheckersData.java:306-307 | the jump test on the array agrees with CanJump on its contents |
| Engine.CheckersData.JumpTurn | edu/iastate/cs472/proj2/CheckersData.java:306-324 | one loop turn, with its recursive call, returns TryJump of the board |
| Engine.CheckersData.GetLegalMoves | edu/iastate/cs472/proj2/CheckersData.java:159-203 | the method returns LegalMoves of the board |
| Engine.CheckersData.FindAllJumps | edu/iastate/cs472/proj2/CheckersData.java:164-178 | the first traversal returns the first scan of the board, and jumpAvailable is set exactly when it found a move |
| Engine.CheckersData.JumpRow | edu/iastate/cs472/proj2/CheckersData.java:169-177 | one row of the first traversal extends the scan by that row's squares, or reports an overflow that ends the scan |
| Engine.CheckersData.JumpSquare | edu/iastate/cs472/proj2/CheckersData.java:170-176 | one square of the first traversal extends the scan by that square |
| Engine.CheckersData.FindAllRegularMoves | edu/iastate/cs472/proj2/CheckersData.java:185-195 | the second traversal returns the second scan of the board |
| Engine.CheckersData.RegularRow | edu/iastate/cs472/proj2/CheckersData.java:186-194 | one row of the second traversal extends the scan by that row's squares |
| Engine.CheckersData.RegularSquare | edu/iastate/cs472/proj2/CheckersData.java:187-193 | one square of the second traversal extends the scan by that square |

## Left out

- `toString` and the ANSI colour constants (CheckersData.java:40-70) are console presentation. They are not modelled.
- `MCNode` is not part of this model. It is a passive record with a floating-point score and has no behaviour of its own.
- The class `CheckersMove` is not part of this model. A move is the sequence of squares it visits, and `clone`/`addMove` become sequence copies and appends. Aliasing between move objects is not modelled.
- The board is one `array2<int>`, not an array of row arrays, so aliasing between the rows of `int[][]` is not modelled.
- Exceptions are not modelled:
  - the `makeMove` overloads and `pieceAt` require their squares to be on the board, because the Java code throws `ArrayIndexOutOfBoundsException` otherwise and states that the move is assumed legal;
  - a null `move` is not modelled.
- The stack depth at which the JVM overflows is a parameter (`fuel`), not a constant. `OutOfFuel` stands for the `StackOverflowError`, and the model does not say which depth a real JVM reaches.
- Coordinates are unbounded integers. Java's 32-bit wrap-around in `row + 2 * rowDirections[i]` is not modelled; an argument near the `int` limits lands off the board both ways.
- The order in which moves are listed is modelled exactly, including repeated moves. The lemmas about which moves are returned speak of membership.
