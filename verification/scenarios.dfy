/**
 The board and hand the bot sets up for itself in `play_turn` and
 `__init__` (bot.py:18, 34-36): a 3x3 grid with a blue square in the middle,
 and a hand of a blue circle, a red square and a blue star. The lemmas work
 out which first moves the rules allow there, taking the played cells to be
 the occupied cells of the grid (`PlayedPositions`). The source constructs
 this board with an empty list of played positions (board.py:7), so its own
 search offers no candidate cell on it; the results here hold for the board
 as it would be had its centre tile been played.
 */
module Scenarios {
  import opened Tiles
  import opened Lines
  import opened Board
  import opened Steps
  import opened Restrictions
  import opened Search

  const BlueSquare := Tile(Square, Blue)
  const BlueCircle := Tile(Circle, Blue)
  const RedSquare := Tile(Square, Red)
  const BlueStar := Tile(Star, Blue)
  const RedCircle := Tile(Circle, Red)

  /** A 3x3 grid with `t` in the middle; the bot's fixture is `Centred(BlueSquare)`. */
  function Centred(t: Tile): (g: Grid)
    ensures IsGrid(g) && Height(g) == 3 && Width(g) == 3
  {
    [[None, None, None], [None, Some(t), None], [None, None, None]]
  }

  function Fixture(): (g: Grid)
    ensures IsGrid(g) && Height(g) == 3 && Width(g) == 3
  {
    Centred(BlueSquare)
  }

  /** With one tile in the middle, its four neighbours are the candidates, in the order left, right, up, down. */
  lemma CentredCandidates(t: Tile)
    ensures PlayablePositions(Centred(t), Empty()) == [Position(1, 0), Position(1, 2), Position(0, 1), Position(2, 1)]
  {
    var g := Centred(t);
    CentredPlayed(t);
    assert RestrictionFor(g, Empty()) == NoRestriction;
    SingleCandidates(g, Position(1, 1));
    CentredAround(t);
  }

  lemma SingleCandidates(g: Grid, p: Position)
    requires IsGrid(g) && InBounds(g, p)
    ensures Candidates(g, [p]) == AdjacentEmptyPositions(g, p)
  {
    assert [p][1..] == [];
    assert Candidates(g, [p]) == AdjacentEmptyPositions(g, p) + [];
  }

  lemma CentredAround(t: Tile)
    ensures AdjacentEmptyPositions(Centred(t), Position(1, 1)) == [Position(1, 0), Position(1, 2), Position(0, 1), Position(2, 1)]
  {
    assert [Position(1, 0)] + [Position(1, 2)] + [Position(0, 1)] + [Position(2, 1)]
      == [Position(1, 0), Position(1, 2), Position(0, 1), Position(2, 1)];
  }

  /** The middle is the only played cell. */
  lemma CentredPlayed(t: Tile)
    ensures PlayedPositions(Centred(t)) == [Position(1, 1)]
  {
    var g := Centred(t);
    CentredRows(t);
    assert OccupiedFrom(g, 2) == [] + [];
    assert OccupiedFrom(g, 1) == [Position(1, 1)] + [];
    assert OccupiedFrom(g, 0) == [] + [Position(1, 1)];
  }

  lemma CentredRows(t: Tile)
    ensures OccupiedInRow(Centred(t), 0, 0) == []
    ensures OccupiedInRow(Centred(t), 1, 0) == [Position(1, 1)]
    ensures OccupiedInRow(Centred(t), 2, 0) == []
  {
    var g := Centred(t);
    EmptyScan(g, 0, 0);
    EmptyScan(g, 2, 0);
    MiddleRow(t);
  }

  lemma MiddleRow(t: Tile)
    ensures OccupiedInRow(Centred(t), 1, 0) == [Position(1, 1)]
  {
    var g := Centred(t);
    EmptyScan(g, 1, 2);
    assert OccupiedInRow(g, 1, 1) == [Position(1, 1)] + [];
    assert OccupiedInRow(g, 1, 0) == [] + [Position(1, 1)];
  }

  /** Scanning a row from a column past which it holds no tile finds nothing. */
  lemma {:induction false} EmptyScan(g: Grid, row: int, c: nat)
    requires IsGrid(g) && 0 <= row < Height(g)
    requires forall j | c <= j < Width(g) :: g[row][j].None?
    ensures OccupiedInRow(g, row, c) == []
    decreases Width(g) - c
  {
    if c < Width(g) {
      EmptyScan(g, row, c + 1);
    }
  }

  /** Two tiles make a legal line exactly when they differ and share a shape or a colour. */
  lemma PairLine(t: Tile, c: Tile)
    ensures IsValidLine([t, c]) <==> t != c && (t.shape == c.shape || t.color == c.color)
    ensures IsValidLine([t])
  {
    assert [t, c][1] == c;
  }

  lemma LeftOfCentre(c: Tile, t: Tile)
    ensures IsValidMove(Centred(c), t, Position(1, 0)) <==> t != c && (t.shape == c.shape || t.color == c.color)
  {
    var g := Centred(c);
    assert Run(g, Position(1, 2), Right) == [];
    assert Run(g, Position(1, 1), Right) == [c];
    assert Run(g, Position(1, -1), Left) == [];
    assert Run(g, Position(2, 0), Down) == [];
    assert Run(g, Position(0, 0), Up) == [];
    BesideLines(g, t, c, Position(1, 0), HorizontalLine(g, t, Position(1, 0)), VerticalLine(g, t, Position(1, 0)));
  }

  lemma RightOfCentre(c: Tile, t: Tile)
    ensures IsValidMove(Centred(c), t, Position(1, 2)) <==> t != c && (t.shape == c.shape || t.color == c.color)
  {
    var g := Centred(c);
    assert Run(g, Position(1, 3), Right) == [];
    assert Run(g, Position(1, 0), Left) == [];
    assert Run(g, Position(1, 1), Left) == [c];
    assert Run(g, Position(2, 2), Down) == [];
    assert Run(g, Position(0, 2), Up) == [];
    BesideLines(g, t, c, Position(1, 2), HorizontalLine(g, t, Position(1, 2)), VerticalLine(g, t, Position(1, 2)));
  }

  lemma AboveCentre(c: Tile, t: Tile)
    ensures IsValidMove(Centred(c), t, Position(0, 1)) <==> t != c && (t.shape == c.shape || t.color == c.color)
  {
    var g := Centred(c);
    assert Run(g, Position(0, 2), Right) == [];
    assert Run(g, Position(0, 0), Left) == [];
    assert Run(g, Position(2, 1), Down) == [];
    assert Run(g, Position(1, 1), Down) == [c];
    assert Run(g, Position(-1, 1), Up) == [];
    BesideLines(g, t, c, Position(0, 1), VerticalLine(g, t, Position(0, 1)), HorizontalLine(g, t, Position(0, 1)));
  }

  lemma BelowCentre(c: Tile, t: Tile)
    ensures IsValidMove(Centred(c), t, Position(2, 1)) <==> t != c && (t.shape == c.shape || t.color == c.color)
  {
    var g := Centred(c);
    assert Run(g, Position(2, 2), Right) == [];
    assert Run(g, Position(2, 0), Left) == [];
    assert Run(g, Position(3, 1), Down) == [];
    assert Run(g, Position(0, 1), Up) == [];
    assert Run(g, Position(1, 1), Up) == [c];
    BesideLines(g, t, c, Position(2, 1), VerticalLine(g, t, Position(2, 1)), HorizontalLine(g, t, Position(2, 1)));
  }

  /**
   An empty cell next to a tile, whose one line is that tile and whose other
   line is the new tile alone, takes exactly the tiles that pair with it.
   */
  lemma BesideLines(g: Grid, t: Tile, c: Tile, p: Position, pair: seq<Tile>, single: seq<Tile>)
    requires IsGrid(g) && Width(g) > 1 && InBounds(g, p) && !Occupied(g, p) && HasOccupiedNeighbour(g, p)
    requires pair == [t, c] && single == [t]
    requires {HorizontalLine(g, t, p), VerticalLine(g, t, p)} == {pair, single}
    ensures IsValidMove(g, t, p) <==> t != c && (t.shape == c.shape || t.color == c.color)
  {
    PairLine(t, c);
  }

  /**
   Beside a lone tile `c`, a tile `t` may be played exactly when it is not a
   copy of `c` and shares its shape or its colour.
   */
  lemma NextToCentre(c: Tile, t: Tile, p: Position)
    requires p in [Position(1, 0), Position(1, 2), Position(0, 1), Position(2, 1)]
    ensures IsValidMove(Centred(c), t, p) <==> t != c && (t.shape == c.shape || t.color == c.color)
  {
    if p == Position(1, 0) {
      LeftOfCentre(c, t);
    } else if p == Position(1, 2) {
      RightOfCentre(c, t);
    } else if p == Position(0, 1) {
      AboveCentre(c, t);
    } else {
      BelowCentre(c, t);
    }
  }

  /** A corner touches the centre only diagonally, and the centre itself is taken. */
  lemma CornerAndCentre(c: Tile, t: Tile)
    ensures !IsValidMove(Centred(c), t, Position(0, 0))
    ensures !IsValidMove(Centred(c), t, Position(1, 1))
  {
  }

  /**
   On the fixture board every tile of the fixture hand may go on each of the
   four cells around the blue square; a red circle may go on none of them, and
   neither may a second blue square.
   */
  lemma FixtureFirstMoves(p: Position)
    requires p in PlayablePositions(Fixture(), Empty())
    ensures IsValidMove(Fixture(), BlueCircle, p)
    ensures IsValidMove(Fixture(), RedSquare, p)
    ensures IsValidMove(Fixture(), BlueStar, p)
    ensures !IsValidMove(Fixture(), RedCircle, p)
    ensures !IsValidMove(Fixture(), BlueSquare, p)
  {
    CentredCandidates(BlueSquare);
    NextToCentre(BlueSquare, BlueCircle, p);
    NextToCentre(BlueSquare, RedSquare, p);
    NextToCentre(BlueSquare, BlueStar, p);
    NextToCentre(BlueSquare, RedCircle, p);
    NextToCentre(BlueSquare, BlueSquare, p);
  }

  /**
   The search with only the blue circle in hand on the fixture board: each of
   the four cells around the blue square is recorded twice, and no empty play
   is recorded, so eight plays in all.
   */
  lemma FixtureBlueCircleAlone()
    ensures FindAllPlays(Fixture(), [BlueCircle]).plays == [
      PlaySteps([BlueCircle], [Position(1, 0)], 0), PlaySteps([BlueCircle], [Position(1, 0)], 0),
      PlaySteps([BlueCircle], [Position(1, 2)], 0), PlaySteps([BlueCircle], [Position(1, 2)], 0),
      PlaySteps([BlueCircle], [Position(0, 1)], 0), PlaySteps([BlueCircle], [Position(0, 1)], 0),
      PlaySteps([BlueCircle], [Position(2, 1)], 0), PlaySteps([BlueCircle], [Position(2, 1)], 0)]
  {
    CentredOneTile(BlueSquare, BlueCircle);
  }

  /** A lone tile `t` that fits beside the centre tile `c` is recorded twice at each of the four cells. */
  lemma CentredOneTile(c: Tile, t: Tile)
    requires t != c && (t.shape == c.shape || t.color == c.color)
    ensures FindAllPlays(Centred(c), [t]).plays == [
      PlaySteps([t], [Position(1, 0)], 0), PlaySteps([t], [Position(1, 0)], 0),
      PlaySteps([t], [Position(1, 2)], 0), PlaySteps([t], [Position(1, 2)], 0),
      PlaySteps([t], [Position(0, 1)], 0), PlaySteps([t], [Position(0, 1)], 0),
      PlaySteps([t], [Position(2, 1)], 0), PlaySteps([t], [Position(2, 1)], 0)]
  {
    var g := Centred(c);
    OneTileHand(g, t);
    CentredCandidates(c);
    var cands := PlayablePositions(g, Empty());
    forall p | p in cands ensures IsValidMove(g, t, p) {
      NextToCentre(c, t, p);
    }
    DoubledAllLegal(g, Empty(), t, cands);
    TwiceFour(t, cands[0], cands[1], cands[2], cands[3]);
  }

  /** Each cell of `cands`, in order, twice in a row: what `Doubled` lists when every cell is legal. */
  function Twice(s: PlaySteps, t: Tile, cands: seq<Position>): (plays: seq<PlaySteps>)
    requires s.Valid()
    ensures |plays| == 2 * |cands|
    ensures forall j | 0 <= j < |cands| :: plays[2 * j] == s.Append(t, cands[j]) && plays[2 * j + 1] == s.Append(t, cands[j])
    decreases |cands|
  {
    if |cands| == 0 then []
    else
      var rest := Twice(s, t, cands[1..]);
      var plays := [s.Append(t, cands[0]), s.Append(t, cands[0])] + rest;
      assert forall j | 1 <= j < |cands| :: plays[2 * j] == s.Append(t, cands[j]) && plays[2 * j + 1] == s.Append(t, cands[j]) by {
        forall j | 1 <= j < |cands| ensures plays[2 * j] == s.Append(t, cands[j]) && plays[2 * j + 1] == s.Append(t, cands[j]) {
          ShiftPair(s.Append(t, cands[0]), rest, j - 1);
          assert cands[1..][j - 1] == cands[j];
        }
      }
      plays
  }

  /** Behind a leading pair, the pair at index `j` of `rest` sits at index `j + 1`. */
  lemma ShiftPair<T>(x: T, rest: seq<T>, j: nat)
    requires 2 * j + 1 < |rest|
    ensures ([x, x] + rest)[2 * (j + 1)] == rest[2 * j] && ([x, x] + rest)[2 * (j + 1) + 1] == rest[2 * j + 1]
  {
  }

  /** When every cell of `cands` takes the tile, each is recorded twice in a row. */
  lemma {:induction false} DoubledAllLegal(g: Grid, s: PlaySteps, t: Tile, cands: seq<Position>)
    requires IsGrid(g) && s.Valid()
    requires forall q | q in cands :: InBounds(g, q) && IsValidMove(g, t, q)
    ensures Doubled(g, s, t, cands) == Twice(s, t, cands)
    decreases |cands|
  {
    if |cands| > 0 {
      assert cands[0] in cands;
      DoubledAllLegal(g, s, t, cands[1..]);
    }
  }

  lemma TwiceFour(t: Tile, a: Position, b: Position, c: Position, d: Position)
    ensures Twice(Empty(), t, [a, b, c, d]) == [
      PlaySteps([t], [a], 0), PlaySteps([t], [a], 0), PlaySteps([t], [b], 0), PlaySteps([t], [b], 0),
      PlaySteps([t], [c], 0), PlaySteps([t], [c], 0), PlaySteps([t], [d], 0), PlaySteps([t], [d], 0)]
  {
    var r := Twice(Empty(), t, [a, b, c, d]);
    assert r[0] == r[1] == PlaySteps([t], [a], 0);
    assert r[2] == r[3] == PlaySteps([t], [b], 0);
    assert r[4] == r[5] == PlaySteps([t], [c], 0);
    assert r[6] == r[7] == PlaySteps([t], [d], 0);
  }
}
