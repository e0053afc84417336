/**
 The board: a rectangular grid of cells that are either empty or hold a tile,
 with the queries the bot makes of it — line extraction, move legality and
 empty neighbours — and the placement of a tile. bot.py and board.py carry
 identical copies of `is_valid_move` and the two line extractors (board.py
 only adds diagnostic prints), so one definition serves both.
 */
module Board {
  import opened Tiles
  import opened Lines

  type Cell = Option<Tile>

  /** Rows of cells; `grid[row][col]`. */
  type Grid = seq<seq<Cell>>

  /** At least one row and one column, every row as long as the first. */
  predicate IsGrid(g: Grid)
  {
    |g| >= 1 && |g[0]| >= 1 && forall r | 0 <= r < |g| :: |g[r]| == |g[0]|
  }

  function Height(g: Grid): nat
  {
    |g|
  }

  function Width(g: Grid): nat
    requires |g| >= 1
  {
    |g[0]|
  }

  predicate InBounds(g: Grid, p: Position)
    requires IsGrid(g)
  {
    0 <= p.row < Height(g) && 0 <= p.col < Width(g)
  }

  predicate Occupied(g: Grid, p: Position)
    requires IsGrid(g) && InBounds(g, p)
  {
    g[p.row][p.col].Some?
  }

  /** The tile or emptiness at an in-bounds position. */
  function At(g: Grid, p: Position): Cell
    requires IsGrid(g) && InBounds(g, p)
  {
    g[p.row][p.col]
  }

  /**
   Placing a tile writes it into one cell and leaves the shape of the grid and
   every other cell as they were (the model of `Board.play_tile`; the undo by
   snapshot and restore is implicit, since the caller's grid value is never
   changed).
   */
  function Place(g: Grid, t: Tile, p: Position): (g': Grid)
    requires IsGrid(g) && InBounds(g, p)
    ensures IsGrid(g') && Height(g') == Height(g) && Width(g') == Width(g)
    ensures At(g', p) == Some(t)
    ensures forall q | InBounds(g, q) && q != p :: At(g', q) == At(g, q)
  {
    g[p.row := g[p.row][p.col := Some(t)]]
  }

  // ---------------------------------------------------------------------------
  // Line extraction (bot.py get_adjacent_horizontal_line / get_adjacent_vertical_line)

  datatype Direction = Left | Right | Up | Down

  /** The position `n` steps from `p` in direction `d`. */
  function Walk(p: Position, d: Direction, n: int): Position
  {
    match d
    case Left => Position(p.row, p.col - n)
    case Right => Position(p.row, p.col + n)
    case Up => Position(p.row - n, p.col)
    case Down => Position(p.row + n, p.col)
  }

  /** How many in-bounds cells remain from `p` onward in direction `d`. */
  function Remaining(g: Grid, p: Position, d: Direction): int
    requires IsGrid(g)
  {
    match d
    case Left => p.col + 1
    case Right => Width(g) - p.col
    case Up => p.row + 1
    case Down => Height(g) - p.row
  }

  /**
   `run` is the maximal run of tiles starting at `start` and moving in
   direction `d`: its cells are in bounds and hold its tiles in order, and the
   cell just past it is off the grid or empty.
   */
  ghost predicate MaximalRun(g: Grid, start: Position, d: Direction, run: seq<Tile>)
    requires IsGrid(g)
  {
    && (forall j | 0 <= j < |run| :: InBounds(g, Walk(start, d, j)) && At(g, Walk(start, d, j)) == Some(run[j]))
    && !(InBounds(g, Walk(start, d, |run|)) && Occupied(g, Walk(start, d, |run|)))
  }

  /** The scan outward from `start`: it stops at the first empty cell or at the edge. */
  function Run(g: Grid, start: Position, d: Direction): (run: seq<Tile>)
    requires IsGrid(g)
    ensures MaximalRun(g, start, d, run)
    decreases Remaining(g, start, d)
  {
    if InBounds(g, start) && Occupied(g, start) then
      var rest := Run(g, Walk(start, d, 1), d);
      RunCons(g, start, d, At(g, start).value, rest);
      [At(g, start).value] + rest
    else
      []
  }

  /** A tile at `start` followed by the maximal run from the next cell is the maximal run from `start`. */
  lemma RunCons(g: Grid, start: Position, d: Direction, t: Tile, rest: seq<Tile>)
    requires IsGrid(g) && InBounds(g, start) && At(g, start) == Some(t)
    requires MaximalRun(g, Walk(start, d, 1), d, rest)
    ensures MaximalRun(g, start, d, [t] + rest)
  {
    var run := [t] + rest;
    assert Walk(start, d, 0) == start;
    forall j | 1 <= j < |run| ensures InBounds(g, Walk(start, d, j)) && At(g, Walk(start, d, j)) == Some(run[j]) {
      assert Walk(Walk(start, d, 1), d, j - 1) == Walk(start, d, j);
    }
    assert Walk(Walk(start, d, 1), d, |rest|) == Walk(start, d, |run|);
  }

  /** There is only one maximal run from a given cell in a given direction. */
  lemma MaximalRunUnique(g: Grid, start: Position, d: Direction, a: seq<Tile>, b: seq<Tile>)
    requires IsGrid(g)
    requires MaximalRun(g, start, d, a) && MaximalRun(g, start, d, b)
    ensures a == b
  {
    assert |a| == |b|;
    forall j | 0 <= j < |a| ensures a[j] == b[j] {
      assert At(g, Walk(start, d, j)) == Some(a[j]);
    }
  }

  /**
   bot.py `get_adjacent_horizontal_line`: the candidate tile, then the maximal
   run of tiles to its right, then the maximal run to its left.
   */
  function HorizontalLine(g: Grid, t: Tile, p: Position): (line: seq<Tile>)
    requires IsGrid(g)
    ensures |line| >= 1 && line[0] == t
    ensures exists n | 1 <= n <= |line| ::
              MaximalRun(g, Walk(p, Right, 1), Right, line[1..n]) && MaximalRun(g, Walk(p, Left, 1), Left, line[n..])
  {
    var right := Run(g, Walk(p, Right, 1), Right);
    var left := Run(g, Walk(p, Left, 1), Left);
    var line := [t] + right + left;
    assert line[1..1 + |right|] == right && line[1 + |right|..] == left;
    line
  }

  /**
   bot.py `get_adjacent_vertical_line`: the candidate tile, then the maximal
   run below it (higher row index), then the maximal run above it.
   */
  function VerticalLine(g: Grid, t: Tile, p: Position): (line: seq<Tile>)
    requires IsGrid(g)
    ensures |line| >= 1 && line[0] == t
    ensures exists n | 1 <= n <= |line| ::
              MaximalRun(g, Walk(p, Down, 1), Down, line[1..n]) && MaximalRun(g, Walk(p, Up, 1), Up, line[n..])
  {
    var down := Run(g, Walk(p, Down, 1), Down);
    var up := Run(g, Walk(p, Up, 1), Up);
    var line := [t] + down + up;
    assert line[1..1 + |down|] == down && line[1 + |down|..] == up;
    line
  }

  /**
   The horizontal line is determined by the board alone: whatever maximal runs
   to the right and to the left are, the line is the candidate followed by them.
   */
  lemma HorizontalLineOfRuns(g: Grid, t: Tile, p: Position, right: seq<Tile>, left: seq<Tile>)
    requires IsGrid(g)
    requires MaximalRun(g, Walk(p, Right, 1), Right, right)
    requires MaximalRun(g, Walk(p, Left, 1), Left, left)
    ensures HorizontalLine(g, t, p) == [t] + right + left
  {
    MaximalRunUnique(g, Walk(p, Right, 1), Right, right, Run(g, Walk(p, Right, 1), Right));
    MaximalRunUnique(g, Walk(p, Left, 1), Left, left, Run(g, Walk(p, Left, 1), Left));
  }

  /** The vertical counterpart of `HorizontalLineOfRuns`. */
  lemma VerticalLineOfRuns(g: Grid, t: Tile, p: Position, down: seq<Tile>, up: seq<Tile>)
    requires IsGrid(g)
    requires MaximalRun(g, Walk(p, Down, 1), Down, down)
    requires MaximalRun(g, Walk(p, Up, 1), Up, up)
    ensures VerticalLine(g, t, p) == [t] + down + up
  {
    MaximalRunUnique(g, Walk(p, Down, 1), Down, down, Run(g, Walk(p, Down, 1), Down));
    MaximalRunUnique(g, Walk(p, Up, 1), Up, up, Run(g, Walk(p, Up, 1), Up));
  }

  // ---------------------------------------------------------------------------
  // Move legality (bot.py is_valid_move, board.py is_valid_move)

  /**
   The four-way neighbour test of the source, written the way it is written:
   the cell above, below, left and right, each only when it is not beyond the edge.
   */
  function HasOccupiedNeighbour(g: Grid, p: Position): (r: bool)
    requires IsGrid(g) && InBounds(g, p)
    ensures r <==> exists q :: Adjacent(p, q) && InBounds(g, q) && Occupied(g, q)
  {
    var up := Position(p.row - 1, p.col);
    var down := Position(p.row + 1, p.col);
    var left := Position(p.row, p.col - 1);
    var right := Position(p.row, p.col + 1);
    assert Adjacent(p, up) && Adjacent(p, down) && Adjacent(p, left) && Adjacent(p, right);
    (p.row != 0 && Occupied(g, up))
    || (p.row != Height(g) - 1 && Occupied(g, down))
    || (p.col != 0 && Occupied(g, left))
    || (p.col != Width(g) - 1 && Occupied(g, right))
  }

  /**
   bot.py `is_valid_move`: on a grid one column wide only the origin is
   accepted, whatever the grid holds; otherwise the position must be on the
   grid, empty, next to a tile, and both lines through it must be valid.
   */
  function IsValidMove(g: Grid, t: Tile, p: Position): (ok: bool)
    requires IsGrid(g)
    ensures ok ==> InBounds(g, p)
    ensures Width(g) == 1 ==> (ok <==> p == Position(0, 0))
  {
    if Width(g) == 1 then
      p.row == 0 && p.col == 0
    else if !InBounds(g, p) then
      false
    else if Occupied(g, p) then
      false
    else if !HasOccupiedNeighbour(g, p) then
      false
    else if !IsValidLine(HorizontalLine(g, t, p)) then
      false
    else
      IsValidLine(VerticalLine(g, t, p))
  }

  /**
   On a grid wider than one column a move is legal exactly when the five rules
   of the game hold, with the lines judged by the rule rather than by the scan.
   */
  lemma IsValidMoveIff(g: Grid, t: Tile, p: Position)
    requires IsGrid(g) && Width(g) > 1
    ensures IsValidMove(g, t, p) <==>
      && InBounds(g, p)
      && !Occupied(g, p)
      && (exists q :: Adjacent(p, q) && InBounds(g, q) && Occupied(g, q))
      && LegalLine(HorizontalLine(g, t, p))
      && LegalLine(VerticalLine(g, t, p))
  {
  }

  // ---------------------------------------------------------------------------
  // Empty neighbours (bot.py get_adjacent_empty_positions)

  /** The fixed listing order of neighbours: left, right, up, down. */
  function NeighbourRank(p: Position, q: Position): int
  {
    if q == Walk(p, Left, 1) then 0
    else if q == Walk(p, Right, 1) then 1
    else if q == Walk(p, Up, 1) then 2
    else 3
  }

  function EmptyOrNothing(g: Grid, q: Position, onGrid: bool): (r: seq<Position>)
    requires IsGrid(g)
    requires onGrid ==> InBounds(g, q)
    ensures |r| <= 1
    ensures forall x :: x in r <==> x == q && onGrid && !Occupied(g, q)
  {
    if onGrid && !Occupied(g, q) then [q] else []
  }

  /** The empty orthogonal neighbours of an on-grid cell, at most four, in the order left, right, up, down. */
  function AdjacentEmptyPositions(g: Grid, p: Position): (r: seq<Position>)
    requires IsGrid(g) && InBounds(g, p)
    ensures |r| <= 4
    ensures forall q :: q in r <==> Adjacent(p, q) && InBounds(g, q) && !Occupied(g, q)
    ensures forall i, j | 0 <= i < j < |r| :: NeighbourRank(p, r[i]) < NeighbourRank(p, r[j])
  {
    var left := EmptyOrNothing(g, Walk(p, Left, 1), p.col > 0);
    var right := EmptyOrNothing(g, Walk(p, Right, 1), p.col < Width(g) - 1);
    var up := EmptyOrNothing(g, Walk(p, Up, 1), p.row > 0);
    var down := EmptyOrNothing(g, Walk(p, Down, 1), p.row < Height(g) - 1);
    AdjacentEmptyFacts(g, p, left, right, up, down);
    left + right + up + down
  }

  lemma AdjacentEmptyFacts(g: Grid, p: Position, left: seq<Position>, right: seq<Position>, up: seq<Position>, down: seq<Position>)
    requires IsGrid(g) && InBounds(g, p)
    requires left == EmptyOrNothing(g, Walk(p, Left, 1), p.col > 0)
    requires right == EmptyOrNothing(g, Walk(p, Right, 1), p.col < Width(g) - 1)
    requires up == EmptyOrNothing(g, Walk(p, Up, 1), p.row > 0)
    requires down == EmptyOrNothing(g, Walk(p, Down, 1), p.row < Height(g) - 1)
    ensures |left + right + up + down| <= 4
    ensures forall q :: q in left + right + up + down <==> Adjacent(p, q) && InBounds(g, q) && !Occupied(g, q)
    ensures forall i, j | 0 <= i < j < |left + right + up + down| ::
      NeighbourRank(p, (left + right + up + down)[i]) < NeighbourRank(p, (left + right + up + down)[j])
  {
    NeighbourFacts(g, p);
    RankedConcat(p, left, right, up, down);
  }

  /** The four neighbours have ranks 0 to 3, and the on-grid ones are exactly the adjacent in-bounds cells. */
  lemma NeighbourFacts(g: Grid, p: Position)
    requires IsGrid(g) && InBounds(g, p)
    ensures NeighbourRank(p, Walk(p, Left, 1)) == 0 && NeighbourRank(p, Walk(p, Right, 1)) == 1
    ensures NeighbourRank(p, Walk(p, Up, 1)) == 2 && NeighbourRank(p, Walk(p, Down, 1)) == 3
    ensures forall q | Adjacent(p, q) ::
      || (q == Walk(p, Left, 1) && (InBounds(g, q) <==> p.col > 0))
      || (q == Walk(p, Right, 1) && (InBounds(g, q) <==> p.col < Width(g) - 1))
      || (q == Walk(p, Up, 1) && (InBounds(g, q) <==> p.row > 0))
      || (q == Walk(p, Down, 1) && (InBounds(g, q) <==> p.row < Height(g) - 1))
    ensures Adjacent(p, Walk(p, Left, 1)) && Adjacent(p, Walk(p, Right, 1))
    ensures Adjacent(p, Walk(p, Up, 1)) && Adjacent(p, Walk(p, Down, 1))
  {
  }

  /** Four pieces of at most one element each, of ranks 0, 1, 2, 3, concatenate to a rank-increasing list. */
  lemma RankedConcat(p: Position, a: seq<Position>, b: seq<Position>, c: seq<Position>, d: seq<Position>)
    requires |a| <= 1 && |b| <= 1 && |c| <= 1 && |d| <= 1
    requires forall x | x in a :: NeighbourRank(p, x) == 0
    requires forall x | x in b :: NeighbourRank(p, x) == 1
    requires forall x | x in c :: NeighbourRank(p, x) == 2
    requires forall x | x in d :: NeighbourRank(p, x) == 3
    ensures forall i, j | 0 <= i < j < |a + b + c + d| :: NeighbourRank(p, (a + b + c + d)[i]) < NeighbourRank(p, (a + b + c + d)[j])
  {
    var r := a + b + c + d;
    forall i | 0 <= i < |r| ensures
      || (r[i] in a && i < |a|)
      || (r[i] in b && |a| <= i < |a + b|)
      || (r[i] in c && |a + b| <= i < |a + b + c|)
      || (r[i] in d && |a + b + c| <= i)
    {
      if i < |a| { assert r[i] == a[i]; }
      else if i < |a + b| { assert r[i] == b[i - |a|]; }
      else if i < |a + b + c| { assert r[i] == c[i - |a + b|]; }
      else { assert r[i] == d[i - |a + b + c|]; }
    }
  }

  // ---------------------------------------------------------------------------
  // Played positions

  /** Row-major order: the order in which the occupied cells are listed. */
  predicate Before(a: Position, b: Position)
  {
    a.row < b.row || (a.row == b.row && a.col < b.col)
  }

  function OccupiedInRow(g: Grid, row: int, c: nat): (r: seq<Position>)
    requires IsGrid(g) && 0 <= row < Height(g)
    ensures forall q :: q in r <==> q.row == row && c <= q.col && InBounds(g, q) && Occupied(g, q)
    ensures forall i, j | 0 <= i < j < |r| :: Before(r[i], r[j])
    decreases Width(g) - c
  {
    if c >= Width(g) then []
    else
      var here := Position(row, c);
      (if Occupied(g, here) then [here] else []) + OccupiedInRow(g, row, c + 1)
  }

  function OccupiedFrom(g: Grid, row: nat): (r: seq<Position>)
    requires IsGrid(g)
    ensures forall q :: q in r <==> row <= q.row && InBounds(g, q) && Occupied(g, q)
    ensures forall i, j | 0 <= i < j < |r| :: Before(r[i], r[j])
    decreases Height(g) - row
  {
    if row >= Height(g) then []
    else OccupiedInRow(g, row, 0) + OccupiedFrom(g, row + 1)
  }

  /**
   The played positions of a board: every occupied cell, once each, in
   row-major order. The source keeps them as a separate list, started empty
   by `Board.__init__` (board.py:7); it holds these cells only when every tile
   was placed through `play_tile`.
   */
  function PlayedPositions(g: Grid): (r: seq<Position>)
    requires IsGrid(g)
    ensures forall q :: q in r <==> InBounds(g, q) && Occupied(g, q)
    ensures Distinct(r)
  {
    var r := OccupiedFrom(g, 0);
    assert forall i, j | 0 <= i < j < |r| :: r[i] != r[j] by {
      forall i, j | 0 <= i < j < |r| ensures r[i] != r[j] {
        assert Before(r[i], r[j]);
      }
    }
    r
  }
}
