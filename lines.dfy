// The geometry behind Player.CountNeighbors and Player.CheckState, as pure
// functions: one step along a delta, the run of occupied cells along a ray,
// the length of the line through a cell, and whether a move list holds k in
// a row.

module Lines {
  import opened Points

  const Origin := Point(0, 0)

  /** The four direction pairs, in the order CheckState tries them:
      the two diagonals, the vertical and the horizontal. */
  const WinConditions: seq<(Point, Point)> :=
    [ (Point(-1, -1), Point(1, 1)),
      (Point(1, -1), Point(-1, 1)),
      (Point(-1, 0), Point(1, 0)),
      (Point(0, -1), Point(0, 1)) ]

  function Step(p: Point, d: Point): Point
  {
    Point(p.x + d.x, p.y + d.y)
  }

  function Opposite(d: Point): Point
  {
    Point(-d.x, -d.y)
  }

  /** A direction pair the scan can use: both deltas non-zero and opposite. */
  predicate OppositePair(direction: (Point, Point))
  {
    direction.0 != Origin && direction.1 == Opposite(direction.0)
  }

  lemma WinConditionsAreOppositePairs()
    ensures |WinConditions| == 4
    ensures forall direction :: direction in WinConditions ==> OppositePair(direction)
  {
  }

  lemma WinConditionsListed(direction: (Point, Point))
    requires direction in WinConditions
    ensures direction == WinConditions[0] || direction == WinConditions[1] ||
      direction == WinConditions[2] || direction == WinConditions[3]
  {
  }

  /** The test a neighbour must pass: upper bounds only, then membership.
      There is deliberately no test of x >= 0 or y >= 0. */
  predicate Occupied(moves: seq<Point>, q: Point, m: int, n: int): (r: bool)
    ensures r ==> q in moves
    ensures OnBoard(q, m, n) && q in moves ==> r
  {
    q.x < m && q.y < n && q in moves
  }

  predicate OnBoard(q: Point, m: int, n: int)
  {
    0 <= q.x < m && 0 <= q.y < n
  }

  /** When every move is on the board, the upper-bound test is as good as a
      full bounds test: the missing lower bounds only matter for moves off it. */
  lemma OnBoardMovesNeedNoLowerBound(moves: seq<Point>, q: Point, m: int, n: int)
    requires forall p :: p in moves ==> OnBoard(p, m, n)
    ensures Occupied(moves, q, m, n) <==> OnBoard(q, m, n) && q in moves
  {
  }

  /** How far q lies along d: strictly increases with every Step along a non-zero d. */
  function Ahead(q: Point, d: Point): int
  {
    (if d.x > 0 then q.x else if d.x < 0 then -q.x else 0) +
    (if d.y > 0 then q.y else if d.y < 0 then -q.y else 0)
  }

  /** An upper bound of Ahead over the moves: a ray leaves the moves before passing it. */
  function Furthest(moves: seq<Point>, d: Point): (r: int)
    ensures forall q :: q in moves ==> Ahead(q, d) <= r
  {
    if moves == [] then 0
    else
      var rest := Furthest(moves[1..], d);
      if Ahead(moves[0], d) > rest then Ahead(moves[0], d) else rest
  }

  /** The number of consecutive occupied cells met when walking from p along d
      (p itself not counted). */
  function Run(moves: seq<Point>, p: Point, d: Point, m: int, n: int): (r: nat)
    requires d != Origin
    ensures r > 0 <==> Occupied(moves, Step(p, d), m, n)
    decreases Furthest(moves, d) - Ahead(p, d)
  {
    var q := Step(p, d);
    if Occupied(moves, q, m, n) then 1 + Run(moves, q, d, m, n) else 0
  }

  /** The count CountNeighbors works towards: the cell itself plus both runs. */
  function LineLength(moves: seq<Point>, cell: Point, direction: (Point, Point), m: int, n: int): nat
    requires direction.0 != Origin && direction.1 != Origin
  {
    1 + Run(moves, cell, direction.0, m, n) + Run(moves, cell, direction.1, m, n)
  }

  /** Whether CountNeighbors meets k exactly while counting a cell whose runs
      have lengths a and b: the counter is compared with k only after a step,
      so with k = 1 it is met only when the first step already fails. */
  predicate StopsAtK(a: nat, b: nat, k: int)
  {
    2 <= k <= 1 + a + b || (k == 1 && a == 0)
  }

  /** The value CountNeighbors returns for runs of lengths a and b. */
  function NeighborCount(a: nat, b: nat, k: int): (r: int)
    ensures r == k || r == 1 + a + b
    ensures r >= k <==> 1 + a + b >= k
  {
    if StopsAtK(a, b, k) then k else 1 + a + b
  }

  /** The count is capped at k and is at least k exactly when the whole line is. */
  lemma NeighborCountMeaning(a: nat, b: nat, k: int)
    ensures 1 <= NeighborCount(a, b, k) <= 1 + a + b
    ensures NeighborCount(a, b, k) >= k <==> 1 + a + b >= k
    ensures k >= 2 ==> NeighborCount(a, b, k) == if 1 + a + b < k then 1 + a + b else k
  {
  }

  /** The test CheckState makes for one cell: a line of at least k along one
      of the four direction pairs, tried in the table's order. */
  predicate CellWins(moves: seq<Point>, cell: Point, m: int, n: int, k: int): (r: bool)
    ensures k <= 1 ==> r
  {
    k <= LineLength(moves, cell, WinConditions[0], m, n) ||
    k <= LineLength(moves, cell, WinConditions[1], m, n) ||
    k <= LineLength(moves, cell, WinConditions[2], m, n) ||
    k <= LineLength(moves, cell, WinConditions[3], m, n)
  }

  /** Some move lies on a line of at least k. */
  predicate Wins(moves: seq<Point>, m: int, n: int, k: int)
  {
    exists cell :: cell in moves && CellWins(moves, cell, m, n, k)
  }

  /** A line of at least k through the cell along some direction pair of the
      table, whatever its order. */
  predicate SomeLongLine(moves: seq<Point>, cell: Point, m: int, n: int, k: int)
  {
    exists direction {:trigger LineLength(moves, cell, direction, m, n)} ::
      direction in WinConditions && OppositePair(direction) &&
      k <= LineLength(moves, cell, direction, m, n)
  }

  lemma SomeLineIsCellWin(moves: seq<Point>, cell: Point, m: int, n: int, k: int)
    requires SomeLongLine(moves, cell, m, n, k)
    ensures CellWins(moves, cell, m, n, k)
  {
    WinConditionsAreOppositePairs();
    var direction :| direction in WinConditions && OppositePair(direction) &&
      k <= LineLength(moves, cell, direction, m, n);
    WinConditionsListed(direction);
  }

  lemma CellWinIsSomeLine(moves: seq<Point>, cell: Point, m: int, n: int, k: int)
    requires CellWins(moves, cell, m, n, k)
    ensures SomeLongLine(moves, cell, m, n, k)
  {
    WinConditionsAreOppositePairs();
    var c :| 0 <= c < 4 && k <= LineLength(moves, cell, WinConditions[c], m, n);
    assert WinConditions[c] in WinConditions;
  }

  /** The four tests in order say no more and no less than the table as a set. */
  lemma CellWinsBySomeLine(moves: seq<Point>, cell: Point, m: int, n: int, k: int)
    ensures CellWins(moves, cell, m, n, k) <==> SomeLongLine(moves, cell, m, n, k)
  {
    if SomeLongLine(moves, cell, m, n, k) {
      SomeLineIsCellWin(moves, cell, m, n, k);
    }
    if CellWins(moves, cell, m, n, k) {
      CellWinIsSomeLine(moves, cell, m, n, k);
    }
  }

  /** Wins stated over the direction table as a whole. */
  lemma WinsBySomeLine(moves: seq<Point>, m: int, n: int, k: int)
    ensures Wins(moves, m, n, k) <==> exists cell :: cell in moves && SomeLongLine(moves, cell, m, n, k)
  {
    forall cell | cell in moves
      ensures CellWins(moves, cell, m, n, k) <==> SomeLongLine(moves, cell, m, n, k)
    {
      CellWinsBySomeLine(moves, cell, m, n, k);
    }
  }

  // ---------------------------------------------------------------------
  // Run is the maximal run: an independent characterisation by the i-th cell
  // of the walk.

  function Walk(p: Point, d: Point, i: nat): Point
  {
    if i == 0 then p else Step(Walk(p, d, i - 1), d)
  }

  lemma {:induction false} WalkShift(p: Point, d: Point, i: nat)
    ensures Walk(Step(p, d), d, i) == Walk(p, d, i + 1)
  {
    if i > 0 {
      WalkShift(p, d, i - 1);
    }
  }

  /** The first Run cells of the walk are occupied and the next one is not. */
  lemma {:induction false} RunIsMaximal(moves: seq<Point>, p: Point, d: Point, m: int, n: int)
    requires d != Origin
    ensures forall i :: 1 <= i <= Run(moves, p, d, m, n) ==> Occupied(moves, Walk(p, d, i), m, n)
    ensures !Occupied(moves, Walk(p, d, Run(moves, p, d, m, n) + 1), m, n)
    decreases Furthest(moves, d) - Ahead(p, d)
  {
    var q := Step(p, d);
    var a := Run(moves, p, d, m, n);
    if Occupied(moves, q, m, n) {
      RunIsMaximal(moves, q, d, m, n);
      forall i | 1 <= i <= a
        ensures Occupied(moves, Walk(p, d, i), m, n)
      {
        if i > 1 {
          WalkShift(p, d, i - 1);
        }
      }
      WalkShift(p, d, a);
    }
  }

  /** Conversely, a run of exactly a occupied cells followed by a gap has length a. */
  lemma RunIsUnique(moves: seq<Point>, p: Point, d: Point, m: int, n: int, a: nat)
    requires d != Origin
    requires forall i :: 1 <= i <= a ==> Occupied(moves, Walk(p, d, i), m, n)
    requires !Occupied(moves, Walk(p, d, a + 1), m, n)
    ensures Run(moves, p, d, m, n) == a
  {
    RunIsMaximal(moves, p, d, m, n);
  }

  // ---------------------------------------------------------------------
  // A line through a stored cell never holds more cells than there are moves.

  /** The cells a Run counts, as a set. */
  ghost function RunCells(moves: seq<Point>, p: Point, d: Point, m: int, n: int): (cells: set<Point>)
    requires d != Origin
    ensures |cells| == Run(moves, p, d, m, n)
    ensures forall q :: q in cells ==> q in moves && Ahead(q, d) > Ahead(p, d)
    decreases Furthest(moves, d) - Ahead(p, d)
  {
    var q := Step(p, d);
    if Occupied(moves, q, m, n) then {q} + RunCells(moves, q, d, m, n) else {}
  }

  /** The distinct cells of a sequence. */
  function Elements(s: seq<Point>): set<Point>
  {
    set q | q in s
  }

  lemma {:induction false} ElementsBound(s: seq<Point>)
    ensures |Elements(s)| <= |s|
  {
    if s != [] {
      ElementsBound(s[1..]);
      assert Elements(s) == {s[0]} + Elements(s[1..]);
    }
  }

  lemma SubsetBound(small: set<Point>, large: set<Point>)
    requires small <= large
    ensures |small| <= |large|
  {
    assert large == small + (large - small);
  }

  /** With opposite deltas, the cell and its two runs are distinct moves. */
  lemma LineWithinMoves(moves: seq<Point>, cell: Point, direction: (Point, Point), m: int, n: int)
    requires OppositePair(direction) && cell in moves
    ensures LineLength(moves, cell, direction, m, n) <= |moves|
  {
    var d := direction.0;
    var forward := RunCells(moves, cell, d, m, n);
    var backward := RunCells(moves, cell, Opposite(d), m, n);
    assert forall q :: q in backward ==> Ahead(q, d) < Ahead(cell, d);
    assert forward * backward == {};
    var line := forward + backward + {cell};
    assert |line| == LineLength(moves, cell, direction, m, n);
    SubsetBound(line, Elements(moves));
    ElementsBound(moves);
  }

  /** The line CheckState measures through a stored cell along the c-th pair
      fits in the moves. */
  lemma TableLineWithinMoves(moves: seq<Point>, cell: Point, c: int, m: int, n: int)
    requires cell in moves && 0 <= c < |WinConditions|
    ensures LineLength(moves, cell, WinConditions[c], m, n) <= |moves|
  {
    WinConditionsAreOppositePairs();
    LineWithinMoves(moves, cell, WinConditions[c], m, n);
  }

  /** Fewer distinct moves than k never make k in a row. */
  lemma ShortMoveListNeverWins(moves: seq<Point>, m: int, n: int, k: int)
    requires |moves| < k
    ensures !Wins(moves, m, n, k)
  {
    forall cell | cell in moves
      ensures !CellWins(moves, cell, m, n, k)
    {
      TableLineWithinMoves(moves, cell, 0, m, n);
      TableLineWithinMoves(moves, cell, 1, m, n);
      TableLineWithinMoves(moves, cell, 2, m, n);
      TableLineWithinMoves(moves, cell, 3, m, n);
    }
  }

  // ---------------------------------------------------------------------
  // Worked boards. Each board is a parameter fixed by the requires clause.

  /** A diagonal of three cells wins with k = 3 wherever it lies on the board:
      (0,0), (1,1), (2,2) on the 3x3 board is the case a = b = 0, m = n = 3. */
  lemma DiagonalWins(moves: seq<Point>, a: int, b: int, m: int, n: int)
    requires moves == [Point(a, b), Point(a + 1, b + 1), Point(a + 2, b + 2)]
    requires a + 2 < m && b + 2 < n
    ensures Wins(moves, m, n, 3)
  {
    var direction := (Point(-1, -1), Point(1, 1));
    assert Point(a - 1, b - 1) !in moves;
    assert Run(moves, Point(a, b), direction.0, m, n) == 0;
    assert Point(a + 3, b + 3) !in moves;
    assert Run(moves, Point(a + 2, b + 2), direction.1, m, n) == 0;
    assert Run(moves, Point(a + 1, b + 1), direction.1, m, n) == 1;
    assert Run(moves, Point(a, b), direction.1, m, n) == 2;
    assert WinConditions[0] == direction;
    assert CellWins(moves, Point(a, b), m, n, 3);
  }

  /** Three cells never make four in a row: (0,0), (0,1), (0,2) on the 5x5
      board with k = 4 is one case. */
  lemma RowOfThreeDoesNotWin(moves: seq<Point>, a: int, b: int, m: int, n: int)
    requires moves == [Point(a, b), Point(a, b + 1), Point(a, b + 2)]
    ensures !Wins(moves, m, n, 4)
  {
    ShortMoveListNeverWins(moves, m, n, 4);
  }

  /** A row of four cells wins with k = 4 wherever it lies on the board:
      adding (0,3) to the row above on the 5x5 board is the case a = b = 0. */
  lemma RowOfFourWins(moves: seq<Point>, a: int, b: int, m: int, n: int)
    requires moves == [Point(a, b), Point(a, b + 1), Point(a, b + 2), Point(a, b + 3)]
    requires a < m && b + 3 < n
    ensures Wins(moves, m, n, 4)
  {
    var direction := (Point(0, -1), Point(0, 1));
    assert Point(a, b - 1) !in moves;
    assert Run(moves, Point(a, b), direction.0, m, n) == 0;
    assert Point(a, b + 4) !in moves;
    assert Run(moves, Point(a, b + 3), direction.1, m, n) == 0;
    assert Run(moves, Point(a, b + 2), direction.1, m, n) == 1;
    assert Run(moves, Point(a, b + 1), direction.1, m, n) == 2;
    assert Run(moves, Point(a, b), direction.1, m, n) == 3;
    assert WinConditions[3] == direction;
    assert CellWins(moves, Point(a, b), m, n, 4);
  }

  /** Only upper bounds are tested: a stored cell with x = -1, off the board,
      still extends the run from the cell at x = 0, so the two make 2 in a row. */
  lemma OffBoardMoveWins(moves: seq<Point>, y: int, m: int, n: int)
    requires moves == [Point(0, y), Point(-1, y)]
    requires 0 < m && y < n
    ensures Run(moves, Point(0, y), Point(-1, 0), m, n) == 1
    ensures Wins(moves, m, n, 2)
  {
    var direction := (Point(-1, 0), Point(1, 0));
    assert Point(-2, y) !in moves;
    assert Run(moves, Point(-1, y), direction.0, m, n) == 0;
    assert Run(moves, Point(0, y), direction.0, m, n) == 1;
    assert Point(1, y) !in moves;
    assert Run(moves, Point(0, y), direction.1, m, n) == 0;
    assert WinConditions[2] == direction;
    assert CellWins(moves, Point(0, y), m, n, 2);
  }
}
