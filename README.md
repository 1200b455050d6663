# TicTacToe (m,n,k-game): a Dafny model of the player and the point

The program is a console m,n,k-game. Two players take turns placing stones on an
m by n board, and the first to get k in a row wins: horizontally, vertically or
diagonally. This project models the core of the game:

- `Point`: a board cell with coordinate equality, an XOR hash and the
  `{x,y}` rendering.
- `Player`: the cells a player occupies and the player's state, with its three
  operations:
  - `UndoMove` removes the last move.
  - `CountNeighbors` counts the line through a cell along one pair of
    opposite directions.
  - `CheckState` scans every occupied cell along the four direction pairs of
    the `WinConditions` table.

The project has four modules:

- `Points` (`points.dfy`): the `Point` datatype.
  - `EqualsAsWritten` is the equality test as written. `Equals` is the
    corrected test (see Findings).
  - `HashCode` is the hash.
  - `ToString` is the rendering. Its inverse `ParsePoint` shows that
    rendering loses nothing.
- `PlayerStates` (`player_state.dfy`): the enum `Win | Draw | Playing`. Its
  first member, `Win`, is the value a player's state holds until it is
  assigned.
- `Lines` (`lines.dfy`): the pure geometry that specifies the scan.
  - `Run` is the number of consecutive occupied cells met walking from a cell
    along one delta.
  - `LineLength` is the cell plus both runs.
  - `CellWins` is the four tests `CheckState` makes for one cell, in its
    order. `Wins` asks whether some move passes them.
  - `StopsAtK` and `NeighborCount` give the exact outcome of
    `CountNeighbors`.
- `Players` (`player.dfy`): `Player` is a class with fields `moves` and
  `state`. Its methods keep the source's loops and are proved against the
  `Lines` functions. The module also holds short scenarios written as methods.
  `UndoWhilePlaying` sets the state to `Playing` directly, through the public
  setter, to reach the guarded branch of `UndoMove`; the console driver never
  does that. `CheckStateTwice` calls `CheckState` twice in a row.

What the code does, stated exactly:

- The constructor fills only the move set, so the state is `Win`. `UndoMove`
  removes the last move only when the state is `Playing`, so a player nobody
  has set to `Playing` can never undo (`UndoAfterFirstMove`).
- `CountNeighbors` compares the counter with k only after each step. Let a
  and b be the two run lengths:
  - It returns k and records `Win` when 2 <= k <= 1 + a + b, or when k = 1
    and a = 0.
  - Otherwise it returns 1 + a + b and leaves the state alone.
  - Either way the count is at least k exactly when the line is
    (`NeighborCountMeaning`).
- The neighbour test checks `x < m` and `y < n` but not `x >= 0` or `y >= 0`.
  A stored move off the board still extends a line (`OffBoardMoveWins`). That
  matters only for moves off the board (`OnBoardMovesNeedNoLowerBound`),
  which the console driver does not reject.
- `Run` terminates without a fuel bound. Each step along a non-zero delta
  increases the measure `Ahead`, and no move lies beyond `Furthest`.

## Model

| member | source | states |
|---|---|---|
| Points.ConstructorStores | TicTacToe/Point.cs:23-27 | the constructor stores x and y unchanged |
| Points.EqualsAsWritten | TicTacToe/Point.cs:39-42 | throws exactly for an argument of another class; answers true exactly for an equal point |
| Points.Equals | TicTacToe/Point.cs:39-42 | corrected equality: true exactly when the argument is a point with the same coordinates |
| Points.EqualsThrowsOnOtherClass | TicTacToe/Point.cs:41 | an argument of another class makes the code as written throw, while the corrected test answers false |
| Points.EqualsAsWrittenAgrees | TicTacToe/Point.cs:39-42 | wherever the code as written returns, it returns what the corrected test does |
| Points.EqualsNull | TicTacToe/Point.cs:41 | null is never equal |
| Points.EqualsIsEquivalence | TicTacToe/Point.cs:39-42 | equality is reflexive, symmetric and transitive |
| Points.HashCode | TicTacToe/Point.cs:34-37 | the XOR of the two coordinate hashes: a diagonal point hashes to 0, and XOR with the y hash gives back the x hash |
| Points.HashAgreesWithEquals | TicTacToe/Point.cs:34-42 | equal points have equal hashes, whatever the coordinate hash |
| Points.HashIgnoresOrder | TicTacToe/Point.cs:34-37 | XOR makes (a,b) and (b,a) hash alike |
| Points.HashOfDiagonalIsZero | TicTacToe/Point.cs:34-37 | every diagonal point (a,a) hashes to 0 |
| Points.NatToDecimal | TicTacToe/Point.cs:31 | the digits of a natural number: non-empty, all digits, no leading zero |
| Points.IntToDecimal | TicTacToe/Point.cs:31 | a coordinate renders with a leading minus exactly when negative, and never contains a comma |
| Points.ToString | TicTacToe/Point.cs:29-32 | "{x,y}": braces at both ends and exactly one comma, right after the x coordinate |
| Points.DecimalRoundTrip | TicTacToe/Point.cs:31 | reading the digits back gives the number |
| Points.IntRoundTrip | TicTacToe/Point.cs:31 | parsing a rendered coordinate gives the coordinate |
| Points.ToStringRoundTrip | TicTacToe/Point.cs:29-32 | parsing the rendering of a point gives the point |
| Points.ToStringInjective | TicTacToe/Point.cs:29-32 | two points render alike only when they are equal |
| Lines.WinConditionsAreOppositePairs | TicTacToe/Player.cs:21 | the table has four pairs, each of two non-zero opposite deltas |
| Lines.WinConditionsListed | TicTacToe/Player.cs:21 | a member of the table is one of its four entries |
| Lines.Occupied | TicTacToe/Player.cs:94 | the neighbour test of both loops (also line 121): a cell passing it is a move, and every move on the board passes it |
| Lines.OnBoardMovesNeedNoLowerBound | TicTacToe/Player.cs:94 | with all moves on the board, the upper-bound test equals the full bounds test plus membership |
| Lines.NeighborCount | TicTacToe/Player.cs:81-138 | the value CountNeighbors returns: either k or the whole line, and at least k exactly when the line is |
| Lines.NeighborCountMeaning | TicTacToe/Player.cs:81-138 | the count is between 1 and the line length, reaches k exactly when the line does, and is min(line, k) for k >= 2 |
| Lines.CellWins | TicTacToe/Player.cs:56-59 | the four tests of one cell in the table's order; with k <= 1 every cell passes them |
| Lines.SomeLineIsCellWin | TicTacToe/Player.cs:56-59 | a long line along any table pair passes the four ordered tests |
| Lines.CellWinIsSomeLine | TicTacToe/Player.cs:56-59 | passing the four ordered tests means a long line along a table pair |
| Lines.CellWinsBySomeLine | TicTacToe/Player.cs:56-59 | the ordered tests hold exactly when some table pair gives a long line |
| Lines.WinsBySomeLine | TicTacToe/Player.cs:53-63 | a win is exactly a move with a long line along some table pair |
| Lines.Run | TicTacToe/Player.cs:87-109 | the number of cells one scan loop counts (the second loop, lines 114-136, is the same along the other delta): non-empty exactly when the first step passes the neighbour test |
| Lines.RunIsMaximal | TicTacToe/Player.cs:87-109 | the first Run cells of the walk pass the neighbour test and the next one fails it |
| Lines.RunIsUnique | TicTacToe/Player.cs:87-109 | any a with a occupied cells then a gap is the Run |
| Lines.RunCells | TicTacToe/Player.cs:87-109 | the counted cells are Run distinct moves, all strictly ahead of the start |
| Lines.LineWithinMoves | TicTacToe/Player.cs:78-139 | along opposite deltas, the line through a stored cell holds at most as many cells as there are moves |
| Lines.TableLineWithinMoves | TicTacToe/Player.cs:56-59 | the same bound for each pair of the table |
| Lines.ShortMoveListNeverWins | TicTacToe/Player.cs:50-67 | fewer moves than k is never a win |
| Lines.DiagonalWins | TicTacToe/Player.cs:50-67 | a diagonal of three on the board is a win with k = 3 (the 3x3 example) |
| Lines.RowOfThreeDoesNotWin | TicTacToe/Player.cs:50-67 | a row of three is no win with k = 4 (the 5x5 example) |
| Lines.RowOfFourWins | TicTacToe/Player.cs:50-67 | a row of four on the board is a win with k = 4 (the 5x5 example) |
| Lines.OffBoardMoveWins | TicTacToe/Player.cs:94 | a stored cell at x = -1 extends the line from x = 0, giving a win with k = 2 |
| Players.NoCellWinsNoWin | TicTacToe/Player.cs:53-66 | when no move passes the four tests there is no win |
| Players.Player.constructor | TicTacToe/Player.cs:26-29 | no moves, and the state is the enum default, Win |
| Players.Player.AddMove | TicTacToe/TicTacToe.cs:161 | the cell is appended exactly when it is not already a move; the moves stay duplicate-free |
| Players.Player.UndoMove | TicTacToe/Player.cs:34-41 | with moves and state Playing, the last move is removed and the rest kept; otherwise nothing changes |
| Players.Player.CountNeighbors | TicTacToe/Player.cs:78-139 | returns NeighborCount of the two runs and records Win exactly when StopsAtK; the count is at least k exactly when the line is |
| Players.Player.CheckState | TicTacToe/Player.cs:50-67 | the answer is Wins of the moves; a win sets the state to Win and a loss leaves it unchanged |
| Players.UndoAfterFirstMove | TicTacToe/Player.cs:26-41 | a fresh player who moves and then undoes keeps the move, and the state stays Win |
| Players.UndoWhilePlaying | TicTacToe/Player.cs:34-41 | with the state set to Playing, undo removes the latest of two moves |
| Players.DiagonalGame | TicTacToe/Player.cs:50-67 | three diagonal moves, then CheckState with k = 3, report a win and leave the state Win |
| Players.RowGame | TicTacToe/Player.cs:50-67 | CheckState with k = 4 answers false after three moves in a row and true after the fourth |
| Players.CheckStateTwice | TicTacToe/Player.cs:50-67 | a second CheckState gives the same answer as the first, and a win stays recorded |

## Findings

| source | as written | input that shows it | evidently intended | confidence | as-written member | corrected member |
|---|---|---|---|---|---|---|
| TicTacToe/Point.cs:41 | `(obj as Point)!.X` reads X through a null reference when obj is not a Point | `p.Equals("x")` or any non-null object of another class | Equals answers false for an object of another class, as the .NET Equals contract requires | high; not executed | Points.EqualsAsWritten, Points.EqualsThrowsOnOtherClass | Points.Equals, Points.EqualsIsEquivalence |

## Left out

- The console driver (TicTacToe.cs): prompts, the play-again loop, timing and board printing. It is I/O; only its `Moves.Add` is modelled, as `AddMove`.
- Move parsing through `Convert.ToDouble` and the cast to long: floating point.
- The draw test (TicTacToe.cs:190) and the `Draw` state, which no core code assigns.
- The hash of a single coordinate (`long.GetHashCode`) is library code. `HashCode` takes it as a parameter.
- Players.Player.moves: the hash set is a duplicate-free sequence in insertion order. `Moves.Last()` follows the set's enumeration order, which is not guaranteed to be insertion order.
- Points.Point: coordinates are unbounded integers. The 64-bit range of `long` and overflow in `Step` are not modelled.
- Players.Player.CountNeighbors: the counter is an unbounded integer, not a 32-bit `int`.
- Players.Player.CountNeighbors: requires both deltas to be non-zero, which `CheckState` always satisfies. With a zero delta the code keeps counting the same cell until the counter happens to equal k.
- Points.IntToDecimal: renders with the invariant culture. A culture with another negative sign is not modelled.
- Concurrency: none in the source.
