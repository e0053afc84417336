/**
 Where the next tile of a turn may go (bot.py `get_playable_positions`,
 `get_tile_position`, `filter_positions` and the `TileRestriction` they use):
 the empty neighbours of every played cell, narrowed to the row or column the
 turn has committed to.
 */
module Restrictions {
  import opened Tiles
  import opened Board
  import opened Steps

  /** `None` in the source, or a `TileRestriction` kind with its anchor position. */
  datatype Restriction =
    | NoRestriction
    | SameRowOrCol(anchor: Position)
    | SameRow(anchor: Position)
    | SameCol(anchor: Position)

  predicate Allows(r: Restriction, q: Position)
  {
    match r
    case NoRestriction => true
    case SameRowOrCol(a) => q.row == a.row || q.col == a.col
    case SameRow(a) => q.row == a.row
    case SameCol(a) => q.col == a.col
  }

  /** `a` is `b` with some elements left out and the rest in their order. */
  ghost predicate IsSublist<T>(a: seq<T>, b: seq<T>)
    decreases |b|
  {
    if |a| == 0 then true
    else if |b| == 0 then false
    else (a[0] == b[0] && IsSublist(a[1..], b[1..])) || IsSublist(a, b[1..])
  }

  /** The filtering loop of `filter_positions`, for a proper restriction. */
  function KeepAllowed(ps: seq<Position>, r: Restriction): (out: seq<Position>)
    ensures IsSublist(out, ps)
    ensures forall q :: multiset(out)[q] == if Allows(r, q) then multiset(ps)[q] else 0
    decreases |ps|
  {
    if |ps| == 0 then []
    else
      var rest := KeepAllowed(ps[1..], r);
      assert ps == [ps[0]] + ps[1..];
      if Allows(r, ps[0]) then
        assert ([ps[0]] + rest)[1..] == rest;
        [ps[0]] + rest
      else rest
  }

  /**
   bot.py `filter_positions`: without a restriction the list comes back as it
   was; otherwise the positions the restriction allows, in their order, each
   as often as it was listed.
   */
  function FilterPositions(ps: seq<Position>, r: Restriction): (out: seq<Position>)
    ensures r.NoRestriction? ==> out == ps
    ensures IsSublist(out, ps)
    ensures forall q :: multiset(out)[q] == if Allows(r, q) then multiset(ps)[q] else 0
  {
    if r.NoRestriction? then
      SublistReflexive(ps);
      ps
    else KeepAllowed(ps, r)
  }

  lemma {:induction false} SublistReflexive<T>(s: seq<T>)
    ensures IsSublist(s, s)
    decreases |s|
  {
    if |s| > 0 {
      SublistReflexive(s[1..]);
    }
  }

  /** Each move of the turn so far sits on the board in the cell it was played to. */
  ghost predicate TurnOnBoard(g: Grid, s: PlaySteps)
  {
    && IsGrid(g) && s.Valid()
    && forall i | 0 <= i < s.Length() :: InBounds(g, s.positions[i]) && At(g, s.positions[i]) == Some(s.tiles[i])
  }

  /**
   bot.py `get_tile_position` applied to the first tile of the turn, taken to
   be the cell of the turn's first move: that cell is on the board, played, and
   holds that tile. The source looks the tile object up by identity in its list
   of played cells, in order of play (bot.py:157-159). Tiles are shared objects,
   so when an earlier played cell already holds the same object, the source
   anchors the restriction at that earlier cell instead.
   */
  function FirstTilePosition(g: Grid, s: PlaySteps): (p: Position)
    requires TurnOnBoard(g, s) && s.Length() >= 1
    ensures p in PlayedPositions(g)
    ensures At(g, p) == Some(s.tiles[0])
    ensures p == s.positions[0]
  {
    s.positions[0]
  }

  /**
   The restriction of bot.py:122-134: none before the first move; after one
   move, the row or the column of the first tile; after two or more, the row of
   the first tile when the first two moves share a row, else its column.
   */
  function RestrictionFor(g: Grid, s: PlaySteps): (r: Restriction)
    requires TurnOnBoard(g, s)
    ensures s.Length() == 0 <==> r.NoRestriction?
    ensures s.Length() == 1 ==> r == SameRowOrCol(s.positions[0])
    ensures s.Length() >= 2 && s.positions[0].row == s.positions[1].row ==> r == SameRow(s.positions[0])
    ensures s.Length() >= 2 && s.positions[0].row != s.positions[1].row ==> r == SameCol(s.positions[0])
  {
    if s.Length() == 0 then NoRestriction
    else
      var anchor := FirstTilePosition(g, s);
      if s.Length() == 1 then SameRowOrCol(anchor)
      else if s.positions[0].row == s.positions[1].row then SameRow(anchor)
      else SameCol(anchor)
  }

  /** How many of `ps` are orthogonal neighbours of `q`. */
  function CountAdjacent(ps: seq<Position>, q: Position): nat
    decreases |ps|
  {
    if |ps| == 0 then 0
    else (if Adjacent(ps[0], q) then 1 else 0) + CountAdjacent(ps[1..], q)
  }

  /**
   bot.py:136-139: the empty neighbours of each played cell, one list after the
   other. A cell is listed once for every played cell it neighbours.
   */
  function Candidates(g: Grid, played: seq<Position>): (out: seq<Position>)
    requires IsGrid(g)
    requires forall o | o in played :: InBounds(g, o)
    ensures forall q :: multiset(out)[q] == (
                if InBounds(g, q) && !Occupied(g, q) then CountAdjacent(played, q) else 0)
    decreases |played|
  {
    if |played| == 0 then []
    else
      var here := AdjacentEmptyPositions(g, played[0]);
      AdjacentEmptyCount(g, played[0]);
      here + Candidates(g, played[1..])
  }

  /** Each empty neighbour of `p` is listed exactly once. */
  lemma AdjacentEmptyCount(g: Grid, p: Position)
    requires IsGrid(g) && InBounds(g, p)
    ensures forall q :: multiset(AdjacentEmptyPositions(g, p))[q] == (
                if Adjacent(p, q) && InBounds(g, q) && !Occupied(g, q) then 1 else 0)
  {
    var r := AdjacentEmptyPositions(g, p);
    assert Distinct(r) by {
      forall i, j | 0 <= i < j < |r| ensures r[i] != r[j] {
        assert NeighbourRank(p, r[i]) < NeighbourRank(p, r[j]);
      }
    }
    DistinctIffSingletons(r);
    forall q ensures multiset(r)[q] == if Adjacent(p, q) && InBounds(g, q) && !Occupied(g, q) then 1 else 0 {
      if q in r {
        assert q in multiset(r);
      }
    }
  }

  /**
   bot.py `get_playable_positions`: every empty cell next to a played cell
   that the turn's restriction allows, listed once for every played cell it
   neighbours.
   */
  function PlayablePositions(g: Grid, s: PlaySteps): (out: seq<Position>)
    requires TurnOnBoard(g, s)
    ensures forall q :: multiset(out)[q] == (
                if InBounds(g, q) && !Occupied(g, q) && Allows(RestrictionFor(g, s), q)
                then CountAdjacent(PlayedPositions(g), q) else 0)
    ensures forall q | q in out :: InBounds(g, q) && !Occupied(g, q) && Allows(RestrictionFor(g, s), q)
  {
    var out := FilterPositions(Candidates(g, PlayedPositions(g)), RestrictionFor(g, s));
    assert forall q | q in out :: InBounds(g, q) && !Occupied(g, q) && Allows(RestrictionFor(g, s), q) by {
      forall q | q in out ensures InBounds(g, q) && !Occupied(g, q) && Allows(RestrictionFor(g, s), q) {
        assert multiset(out)[q] > 0;
      }
    }
    out
  }

  /** A position is playable exactly when it is an empty, allowed cell next to a played cell. */
  lemma PlayableIff(g: Grid, s: PlaySteps, q: Position)
    requires TurnOnBoard(g, s)
    ensures q in PlayablePositions(g, s) <==>
      && InBounds(g, q) && !Occupied(g, q)
      && (exists o :: Adjacent(o, q) && InBounds(g, o) && Occupied(g, o))
      && Allows(RestrictionFor(g, s), q)
  {
    var played := PlayedPositions(g);
    var out := PlayablePositions(g, s);
    assert q in out <==> multiset(out)[q] > 0;
    if exists o :: Adjacent(o, q) && InBounds(g, o) && Occupied(g, o) {
      var o :| Adjacent(o, q) && InBounds(g, o) && Occupied(g, o);
      CountAdjacentPositive(played, q, o);
    } else {
      CountAdjacentZero(g, played, q);
    }
  }

  lemma {:induction false} CountAdjacentPositive(ps: seq<Position>, q: Position, o: Position)
    requires o in ps && Adjacent(o, q)
    ensures CountAdjacent(ps, q) > 0
    decreases |ps|
  {
    if ps[0] != o {
      CountAdjacentPositive(ps[1..], q, o);
    }
  }

  lemma {:induction false} CountAdjacentZero(g: Grid, ps: seq<Position>, q: Position)
    requires IsGrid(g)
    requires forall o | o in ps :: InBounds(g, o) && Occupied(g, o)
    requires !exists o :: Adjacent(o, q) && InBounds(g, o) && Occupied(g, o)
    ensures CountAdjacent(ps, q) == 0
    decreases |ps|
  {
    if |ps| > 0 {
      assert ps[0] in ps;
      CountAdjacentZero(g, ps[1..], q);
    }
  }
}
