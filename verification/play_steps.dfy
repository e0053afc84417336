/**
 The move accumulator (play_steps.py `PlaySteps`; the bot's `TurnSteps` is
 modelled by the same type): two parallel stacks of tiles and positions,
 pushed and popped together, and a point total.
 */
module Steps {
  import opened Tiles

  datatype PlaySteps = PlaySteps(tiles: seq<Tile>, positions: seq<Position>, points: int)
  {
    /** The parallel-list invariant: one position per tile. */
    predicate Valid()
    {
      |tiles| == |positions|
    }

    /** `__len__`: the number of recorded moves. */
    function Length(): (n: nat)
      requires Valid()
      ensures n == |tiles| == |positions|
      ensures n == 0 <==> this == PlaySteps([], [], points)
    {
      |tiles|
    }

    /** `append`: one more tile and position on top, points untouched. */
    function Append(t: Tile, p: Position): (s: PlaySteps)
      requires Valid()
      ensures s.Valid() && s.Length() == Length() + 1
      ensures s.tiles[..|tiles|] == tiles && s.positions[..|positions|] == positions
      ensures s.tiles[|tiles|] == t && s.positions[|positions|] == p
      ensures s.points == points
    {
      PlaySteps(tiles + [t], positions + [p], points)
    }

    /**
     `pop`: drops the top tile and position. On an empty accumulator Python's
     `list.pop` raises, which is reported here as the `EmptyState` failure.
     */
    function Pop(): (r: Result<PlaySteps>)
      requires Valid()
      ensures r.Failure? <==> Length() == 0
      ensures r.Failure? ==> r.error == EmptyState
      ensures r.Success? ==> (
        && r.value.Valid() && r.value.Length() == Length() - 1
        && r.value.tiles == tiles[..|tiles| - 1] && r.value.positions == positions[..|positions| - 1]
        && r.value.points == points)
    {
      if |tiles| == 0 then Failure(EmptyState)
      else Success(PlaySteps(tiles[..|tiles| - 1], positions[..|positions| - 1], points))
    }

    /** The first `n` moves, as the accumulator held them after its `n`-th append. */
    function Truncate(n: nat): (s: PlaySteps)
      requires Valid() && n <= Length()
      ensures s.Valid() && s.Length() == n
      ensures s.tiles == tiles[..n] && s.positions == positions[..n] && s.points == points
    {
      PlaySteps(tiles[..n], positions[..n], points)
    }
  }

  /** `__init__`: both stacks empty and no points. */
  function Empty(): (s: PlaySteps)
    ensures s.Valid() && s.Length() == 0 && s.points == 0
  {
    PlaySteps([], [], 0)
  }

  /** Popping right after pushing gives back exactly what was there (LIFO). */
  lemma PopAfterAppend(s: PlaySteps, t: Tile, p: Position)
    requires s.Valid()
    ensures s.Append(t, p).Pop() == Success(s)
  {
    assert (s.tiles + [t])[..|s.tiles|] == s.tiles;
    assert (s.positions + [p])[..|s.positions|] == s.positions;
  }

  /** Pushing back what was popped restores the accumulator. */
  lemma AppendAfterPop(s: PlaySteps)
    requires s.Valid() && s.Length() > 0
    ensures s.Pop().Success?
    ensures s.Pop().value.Append(s.tiles[|s.tiles| - 1], s.positions[|s.positions| - 1]) == s
  {
    assert s.tiles[..|s.tiles| - 1] + [s.tiles[|s.tiles| - 1]] == s.tiles;
    assert s.positions[..|s.positions| - 1] + [s.positions[|s.positions| - 1]] == s.positions;
  }
}
