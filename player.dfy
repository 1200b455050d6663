// A player of the m,n,k-game: the cells it occupies and its state, with the
// undo operation and the win detection that scans the four lines through
// every occupied cell.

module Players {
  import opened Points
  import opened PlayerStates
  import opened Lines

  predicate NoDuplicates(s: seq<Point>)
  {
    forall i, j :: 0 <= i < j < |s| ==> s[i] != s[j]
  }

  /** When no move passes the four tests there is no win. */
  lemma NoCellWinsNoWin(moves: seq<Point>, m: int, n: int, k: int)
    requires forall j {:trigger CellWins(moves, moves[j], m, n, k)} ::
      0 <= j < |moves| ==> !CellWins(moves, moves[j], m, n, k)
    ensures !Wins(moves, m, n, k)
  {
    forall cell | cell in moves
      ensures !CellWins(moves, cell, m, n, k)
    {
      var j :| 0 <= j < |moves| && moves[j] == cell;
    }
  }

  class Player {
    /** The occupied cells. A hash set in the program; here a sequence without
        duplicates whose order is the order Moves.Last() relies on. */
    var moves: seq<Point>
    var state: PlayerState

    ghost predicate Valid()
      reads this
    {
      NoDuplicates(moves)
    }

    /** Only the move set is initialised, so the state keeps the enum's
        default value, which is Win. */
    constructor ()
      ensures Valid()
      ensures moves == [] && state == DefaultState && state == Win
    {
      moves := [];
      state := DefaultState;
    }

    /** The turn driver's Moves.Add: a cell already present is not added again. */
    method AddMove(p: Point) returns (added: bool)
      requires Valid()
      modifies this`moves
      ensures Valid()
      ensures added <==> p !in old(moves)
      ensures moves == if added then old(moves) + [p] else old(moves)
    {
      added := p !in moves;
      if added {
        moves := moves + [p];
      }
    }

    /** Removes the last move, but only while there is one and the state is Playing. */
    method UndoMove()
      requires Valid()
      modifies this`moves
      ensures Valid()
      ensures if |old(moves)| > 0 && old(state) == Playing
        then moves == old(moves)[..|old(moves)| - 1]
        else moves == old(moves)
      ensures |old(moves)| > 0 && old(state) == Playing ==>
        Elements(moves) == Elements(old(moves)) - {old(moves)[|old(moves)| - 1]}
    {
      if |moves| > 0 && state == Playing {
        ghost var last := moves[|moves| - 1];
        assert moves == moves[..|moves| - 1] + [last];
        moves := moves[..|moves| - 1];
      }
    }

    /** Counts the cell and its occupied neighbours along both deltas of the pair,
        stopping as soon as the count reaches k, which is then recorded as a win.
        Otherwise the count is the whole line and the state is left alone. */
    method CountNeighbors(direction: (Point, Point), cell: Point, m: int, n: int, k: int)
      returns (counter: int)
      requires direction.0 != Origin && direction.1 != Origin
      modifies this`state
      ensures counter == NeighborCount(Run(moves, cell, direction.0, m, n), Run(moves, cell, direction.1, m, n), k)
      ensures state == if StopsAtK(Run(moves, cell, direction.0, m, n), Run(moves, cell, direction.1, m, n), k)
        then Win else old(state)
      ensures 1 <= counter <= LineLength(moves, cell, direction, m, n)
      ensures counter >= k <==> LineLength(moves, cell, direction, m, n) >= k
      ensures counter < k ==> state == old(state)
    {
      ghost var a := Run(moves, cell, direction.0, m, n);
      ghost var b := Run(moves, cell, direction.1, m, n);

      counter := 1;
      var calcPointOne := cell;
      var calcPointTwo := cell;
      var keepComputing := true;

      while keepComputing
        invariant 1 <= counter
        invariant counter - 1 + (if keepComputing then Run(moves, calcPointOne, direction.0, m, n) else 0) == a
        invariant !(2 <= k <= counter) && (!keepComputing ==> k != counter)
        invariant state == old(state)
        decreases if keepComputing then 1 + Run(moves, calcPointOne, direction.0, m, n) else 0
      {
        calcPointOne := Step(calcPointOne, direction.0);
        if calcPointOne.x < m && calcPointOne.y < n && calcPointOne in moves {
          counter := counter + 1;
        } else {
          keepComputing := false;
        }
        if counter == k {
          state := Win;
          return;
        }
      }

      keepComputing := true;

      while keepComputing
        invariant 1 + a <= counter
        invariant counter - 1 - a + (if keepComputing then Run(moves, calcPointTwo, direction.1, m, n) else 0) == b
        invariant !(2 <= k <= counter) && (!keepComputing ==> k != counter)
        invariant k == 1 ==> a != 0
        invariant state == old(state)
        decreases if keepComputing then 1 + Run(moves, calcPointTwo, direction.1, m, n) else 0
      {
        calcPointTwo := Step(calcPointTwo, direction.1);
        if calcPointTwo.x < m && calcPointTwo.y < n && calcPointTwo in moves {
          counter := counter + 1;
        } else {
          keepComputing := false;
        }
        if counter == k {
          state := Win;
          return;
        }
      }
    }

    /** Reports whether some move lies on k in a row along one of the four
        direction pairs, and records a win. The answer does not depend on the
        state, and a loss leaves the state alone. */
    method CheckState(m: int, n: int, k: int) returns (won: bool)
      modifies this`state
      ensures won == Wins(moves, m, n, k)
      ensures if won then state == Win else state == old(state)
    {
      var i := 0;
      while i < |moves|
        invariant 0 <= i <= |moves|
        invariant state == old(state)
        invariant forall j {:trigger CellWins(moves, moves[j], m, n, k)} ::
          0 <= j < i ==> !CellWins(moves, moves[j], m, n, k)
      {
        var cell := moves[i];
        var count := CountNeighbors(WinConditions[0], cell, m, n, k);
        if count < k {
          count := CountNeighbors(WinConditions[1], cell, m, n, k);
        }
        if count < k {
          count := CountNeighbors(WinConditions[2], cell, m, n, k);
        }
        if count < k {
          count := CountNeighbors(WinConditions[3], cell, m, n, k);
        }
        if count >= k {
          assert CellWins(moves, cell, m, n, k);
          state := Win;
          return true;
        }
        i := i + 1;
      }
      NoCellWinsNoWin(moves, m, n, k);
      return false;
    }
  }

  // -----------------------------------------------------------------------
  // Turns as the console driver plays them: Moves.Add, then CheckState, and
  // UndoMove when the player asks for it.

  /** A fresh player's state is Win, so its undo never removes anything. */
  method UndoAfterFirstMove(p: Point) returns (moves: seq<Point>, state: PlayerState)
    ensures moves == [p] && state == Win
  {
    var player := new Player();
    var added := player.AddMove(p);
    player.UndoMove();
    moves, state := player.moves, player.state;
  }

  /** Once the state has been set to Playing, undo removes the latest move. */
  method UndoWhilePlaying(p: Point, q: Point) returns (moves: seq<Point>)
    requires p != q
    ensures moves == [p]
  {
    var player := new Player();
    var added := player.AddMove(p);
    added := player.AddMove(q);
    player.state := Playing;
    player.UndoMove();
    moves := player.moves;
  }

  /** A diagonal of three stored cells on the board is a win with k = 3:
      (0,0), (1,1), (2,2) on the 3x3 board is the case a = b = 0, m = n = 3. */
  method DiagonalGame(a: int, b: int, m: int, n: int) returns (won: bool, state: PlayerState)
    requires a + 2 < m && b + 2 < n
    ensures won && state == Win
  {
    var player := new Player();
    var added := player.AddMove(Point(a, b));
    added := player.AddMove(Point(a + 1, b + 1));
    added := player.AddMove(Point(a + 2, b + 2));
    DiagonalWins(player.moves, a, b, m, n);
    won := player.CheckState(m, n, 3);
    state := player.state;
  }

  /** With k = 4, a row of three is no win and the fourth cell of the row
      completes one: (0,0), (0,1), (0,2), then (0,3) on the 5x5 board is the
      case a = b = 0, m = n = 5. */
  method RowGame(a: int, b: int, m: int, n: int) returns (before: bool, after: bool)
    requires a < m && b + 3 < n
    ensures !before && after
  {
    var player := new Player();
    var added := player.AddMove(Point(a, b));
    added := player.AddMove(Point(a, b + 1));
    added := player.AddMove(Point(a, b + 2));
    RowOfThreeDoesNotWin(player.moves, a, b, m, n);
    before := player.CheckState(m, n, 4);
    added := player.AddMove(Point(a, b + 3));
    RowOfFourWins(player.moves, a, b, m, n);
    after := player.CheckState(m, n, 4);
  }

  /** Checking twice gives the same answer, and a win stays recorded. */
  method CheckStateTwice(player: Player, m: int, n: int, k: int) returns (first: bool, second: bool)
    modifies player`state
    ensures first == second
    ensures second ==> player.state == Win
  {
    first := player.CheckState(m, n, k);
    second := player.CheckState(m, n, k);
  }
}
