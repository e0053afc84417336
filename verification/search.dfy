/**
 The backtracking turn search (bot.py `find_valid_plays` and `swap`).

 The source keeps one mutable board, one mutable move accumulator and the
 bot's hand, and undoes each trial before the next: it restores the board from
 a snapshot, pops the accumulator and swaps the hand back. Here the board and
 the accumulator are values, so the caller's copies are never changed and the
 first two undos are implicit (`Steps.PopAfterAppend` shows the pop gives the
 accumulator back). The hand is threaded through the recursion exactly as the
 source swaps it, so that its restoration is a proved fact rather than an
 assumption.

 The two nested loops of the source become two functions: `TryTiles` walks
 the hand indices `i` from the current depth on, `TryPositions` walks the
 playable positions for the tile at index `i`.
 */
module Search {
  import opened Tiles
  import opened Board
  import opened Steps
  import opened Restrictions

  /** The plays recorded, in order, and the hand as the search leaves it. */
  datatype SearchResult = SearchResult(plays: seq<PlaySteps>, hand: seq<Tile>)

  /** bot.py `swap`: exchanges two entries of the hand and nothing else. */
  function Swap(h: seq<Tile>, i: nat, j: nat): (r: seq<Tile>)
    requires i < |h| && j < |h|
    ensures |r| == |h| && r[i] == h[j] && r[j] == h[i]
    ensures forall x | 0 <= x < |h| && x != i && x != j :: r[x] == h[x]
    ensures multiset(r) == multiset(h)
  {
    h[i := h[j]][j := h[i]]
  }

  /** Swapping the same two entries again undoes the swap. */
  lemma SwapTwice(h: seq<Tile>, i: nat, j: nat)
    requires i < |h| && j < |h|
    ensures Swap(Swap(h, i, j), i, j) == h
  {
    var r := Swap(Swap(h, i, j), i, j);
    assert forall x | 0 <= x < |h| :: r[x] == h[x];
  }

  /**
   Each placement of the sequence is accepted by `IsValidMove` on the board
   holding every earlier placement of the sequence.
   */
  ghost predicate LegalFrom(g: Grid, ts: seq<Tile>, ps: seq<Position>)
    requires IsGrid(g) && |ts| == |ps|
    decreases |ts|
  {
    |ts| == 0 || (IsValidMove(g, ts[0], ps[0]) && LegalFrom(Place(g, ts[0], ps[0]), ts[1..], ps[1..]))
  }

  /** All positions lie on the row, or all on the column, of the first one. */
  ghost predicate Aligned(ps: seq<Position>)
  {
    (forall i | 0 <= i < |ps| :: ps[i].row == ps[0].row) || (forall i | 0 <= i < |ps| :: ps[i].col == ps[0].col)
  }

  /**
   The state at recursion depth `k`: the turn so far is on the board, it
   has `k` moves, their tiles are exactly the committed prefix `hand[..k]`, in
   order, and its positions are distinct and on one line.
   */
  ghost predicate SearchState(g: Grid, hand: seq<Tile>, k: nat, s: PlaySteps)
  {
    && TurnOnBoard(g, s)
    && k <= |hand| && s.Length() == k && s.tiles == hand[..k]
    && Distinct(s.positions) && Aligned(s.positions)
  }

  /**
   The state of the position loop for the tile at hand index `i`: the search
   state at depth `k`, the tile is uncommitted, and every candidate is an
   empty cell on the grid that the turn's restriction allows.
   */
  ghost predicate PositionLoop(g: Grid, hand: seq<Tile>, k: nat, s: PlaySteps, i: nat, tile: Tile, cands: seq<Position>)
  {
    && SearchState(g, hand, k, s) && k <= i < |hand| && hand[i] == tile
    && (forall q | q in cands :: InBounds(g, q) && !Occupied(g, q) && Allows(RestrictionFor(g, s), q))
  }

  /**
   `r` is a play the search may record from the turn `s` on board `g` with
   hand `hand`: it extends `s`, the moves it adds are legal one after the other
   from `g`, it uses no more tiles than the hand holds and only tiles of the
   hand, and its positions are on one line.
   */
  ghost predicate Sound(g: Grid, hand: seq<Tile>, s: PlaySteps, r: PlaySteps)
    requires IsGrid(g)
  {
    && Extends(r, s) && r.Length() <= |hand|
    && LegalFrom(g, r.tiles[|s.tiles|..], r.positions[|s.tiles|..])
    && Aligned(r.positions)
    && multiset(r.tiles) <= multiset(hand)
  }

  /** `r` starts with the moves of `s` and carries the same points. */
  ghost predicate Extends(r: PlaySteps, s: PlaySteps)
  {
    && r.Valid() && s.Valid() && s.Length() <= r.Length()
    && r.tiles[..|s.tiles|] == s.tiles && r.positions[..|s.tiles|] == s.positions
    && r.points == s.points
  }

  /** Every prefix of a recorded play that is longer than `s` was recorded too. */
  ghost predicate PrefixClosed(plays: seq<PlaySteps>, s: PlaySteps)
  {
    forall r, n | r in plays && r.Valid() && |s.tiles| < n <= r.Length() :: r.Truncate(n) in plays
  }

  /**
   bot.py `find_valid_plays` at depth `k` with turn `s`. When the whole hand
   is committed it records the turn and returns. Otherwise it tries every
   uncommitted tile at every playable position, and returns the hand as it
   found it.
   */
  function FindValidPlays(g: Grid, hand: seq<Tile>, k: nat, s: PlaySteps): (out: SearchResult)
    requires SearchState(g, hand, k, s)
    ensures out.hand == hand
    ensures forall r | r in out.plays :: Sound(g, hand, s, r)
    ensures forall r | r in out.plays :: |r.tiles| == k ==> k == |hand|
    ensures k == |hand| ==> out.plays == [s]
    ensures PrefixClosed(out.plays, s)
    ensures forall i, q | k <= i < |hand| && q in PlayablePositions(g, s) && IsValidMove(g, hand[i], q) ::
              s.Append(hand[i], q) in out.plays
    decreases |hand| - k, 2, 0
  {
    if k == |hand| then
      CompleteTurnSound(g, hand, s);
      SearchResult([s], hand)
    else
      TryTiles(g, hand, k, s, k, PlayablePositions(g, s))
  }

  /** The loop over hand indices `i` (bot.py:68-95), from `i` on. */
  function TryTiles(g: Grid, hand: seq<Tile>, k: nat, s: PlaySteps, i: nat, cands: seq<Position>): (out: SearchResult)
    requires SearchState(g, hand, k, s) && k < |hand| && k <= i <= |hand|
    requires forall q | q in cands :: InBounds(g, q) && !Occupied(g, q) && Allows(RestrictionFor(g, s), q)
    ensures out.hand == hand
    ensures forall r | r in out.plays :: Sound(g, hand, s, r) && r.Length() > k
    ensures PrefixClosed(out.plays, s)
    ensures forall j, q | i <= j < |hand| && q in cands && IsValidMove(g, hand[j], q) :: s.Append(hand[j], q) in out.plays
    decreases |hand| - k, 1, |hand| - i
  {
    if i == |hand| then SearchResult([], hand)
    else
      var tile := hand[i];
      var first := TryPositions(g, hand, k, s, i, tile, cands);
      var rest := TryTiles(g, first.hand, k, s, i + 1, cands);
      JoinCovers(g, hand, s, i, cands, first.plays, rest.plays);
      SearchResult(first.plays + rest.plays, rest.hand)
  }

  /** Joining the plays for hand index `i` with those for the later indices covers every index from `i` on. */
  lemma JoinCovers(g: Grid, hand: seq<Tile>, s: PlaySteps, i: nat, cands: seq<Position>, first: seq<PlaySteps>, rest: seq<PlaySteps>)
    requires IsGrid(g) && s.Valid() && i < |hand|
    requires forall q | q in cands && IsValidMove(g, hand[i], q) :: s.Append(hand[i], q) in first
    requires forall j, q | i + 1 <= j < |hand| && q in cands && IsValidMove(g, hand[j], q) :: s.Append(hand[j], q) in rest
    ensures forall j, q | i <= j < |hand| && q in cands && IsValidMove(g, hand[j], q) :: s.Append(hand[j], q) in first + rest
  {
  }

  /**
   The loop over playable positions for the tile at hand index `i`
   (bot.py:73-95): a legal position is played, the new turn recorded, the tile
   swapped into the committed prefix, the search continued one level deeper,
   and the swap undone.
   */
  function TryPositions(g: Grid, hand: seq<Tile>, k: nat, s: PlaySteps, i: nat, tile: Tile, cands: seq<Position>): (out: SearchResult)
    requires SearchState(g, hand, k, s) && k <= i < |hand| && hand[i] == tile
    requires forall q | q in cands :: InBounds(g, q) && !Occupied(g, q) && Allows(RestrictionFor(g, s), q)
    ensures out.hand == hand
    ensures forall r | r in out.plays :: Sound(g, hand, s, r) && r.Length() > k
    ensures PrefixClosed(out.plays, s)
    ensures forall q | q in cands && IsValidMove(g, tile, q) :: s.Append(tile, q) in out.plays
    decreases |hand| - k, 0, |cands|
  {
    if |cands| == 0 then SearchResult([], hand)
    else
      var q := cands[0];
      if IsValidMove(g, tile, q) then
        var g' := Place(g, tile, q);
        var s' := s.Append(tile, q);
        var swapped := Swap(hand, k, i);
        DeeperState(g, hand, k, s, i, tile, q);
        var deeper := FindValidPlays(g', swapped, k + 1, s');
        SwapTwice(hand, k, i);
        var rest := TryPositions(g, Swap(deeper.hand, k, i), k, s, i, tile, cands[1..]);
        OneMoveLegal(g, tile, q);
        NewTurnSound(g, hand, k, s, i, tile, q);
        LiftPlays(g, hand, k, s, i, tile, q, deeper.plays);
        PrefixClosedStep(s, s', deeper.plays, rest.plays);
        SearchResult([s'] + deeper.plays + rest.plays, rest.hand)
      else
        TryPositions(g, hand, k, s, i, tile, cands[1..])
  }

  /**
   The search from an untouched hand and an empty turn, as `play_turn` starts
   it with a fresh accumulator. Every recorded play is legal move by move from
   the given board, uses tiles of the hand and at most all of them, lies on
   one row or one column, and has each of its non-empty prefixes recorded as
   well; the empty play is recorded only for an empty hand; every legal first
   move is recorded; and the hand is handed back in its original order.
   */
  function FindAllPlays(g: Grid, hand: seq<Tile>): (out: SearchResult)
    requires IsGrid(g)
    ensures out.hand == hand
    ensures forall r | r in out.plays ::
              && r.Valid() && r.points == 0 && r.Length() <= |hand|
              && LegalFrom(g, r.tiles, r.positions)
              && Aligned(r.positions)
              && multiset(r.tiles) <= multiset(hand)
    ensures forall r | r in out.plays :: r.Length() == 0 ==> |hand| == 0
    ensures |hand| == 0 ==> out.plays == [Empty()]
    ensures forall r, n | r in out.plays && r.Valid() && 1 <= n <= r.Length() :: r.Truncate(n) in out.plays
    ensures forall i, q | 0 <= i < |hand| && q in PlayablePositions(g, Empty()) && IsValidMove(g, hand[i], q) ::
              PlaySteps([hand[i]], [q], 0) in out.plays
  {
    var s := Empty();
    assert SearchState(g, hand, 0, s);
    var out := FindValidPlays(g, hand, 0, s);
    assert forall r | r in out.plays :: r.tiles[0..] == r.tiles && r.positions[0..] == r.positions;
    assert forall i, q | 0 <= i < |hand| :: s.Append(hand[i], q) == PlaySteps([hand[i]], [q], 0);
    out
  }

  // ---------------------------------------------------------------------------
  // Proof steps of the search

  /** When the whole hand is committed, the turn itself is a sound play. */
  lemma CompleteTurnSound(g: Grid, hand: seq<Tile>, s: PlaySteps)
    requires SearchState(g, hand, |hand|, s)
    ensures Sound(g, hand, s, s)
  {
    assert hand[..|hand|] == hand;
    assert s.tiles[s.Length()..] == [];
    assert s.tiles[..s.Length()] == s.tiles && s.positions[..s.Length()] == s.positions;
  }

  /** One more move on an empty cell the restriction allows keeps the turn on one line. */
  lemma AlignedExtend(g: Grid, s: PlaySteps, q: Position)
    requires TurnOnBoard(g, s) && Distinct(s.positions) && Aligned(s.positions)
    requires Allows(RestrictionFor(g, s), q)
    ensures Aligned(s.positions + [q])
  {
    var ps := s.positions + [q];
    if s.Length() >= 2 {
      assert s.positions[0] != s.positions[1];
    }
    if s.Length() >= 1 {
      assert ps[0] == s.positions[0];
    }
  }

  /** The state one level deeper, after playing `tile` (hand index `i`) at `q` and swapping. */
  lemma DeeperState(g: Grid, hand: seq<Tile>, k: nat, s: PlaySteps, i: nat, tile: Tile, q: Position)
    requires SearchState(g, hand, k, s) && k <= i < |hand| && hand[i] == tile
    requires InBounds(g, q) && !Occupied(g, q) && Allows(RestrictionFor(g, s), q)
    ensures SearchState(Place(g, tile, q), Swap(hand, k, i), k + 1, s.Append(tile, q))
    ensures Aligned(s.Append(tile, q).positions)
  {
    NotInTurn(g, s, q);
    TurnOnBoardPlace(g, s, tile, q);
    SwapPrefix(hand, k, i);
    DistinctAppend(s.positions, q);
    AlignedExtend(g, s, q);
  }

  /** An empty cell is not among the cells the turn has filled. */
  lemma NotInTurn(g: Grid, s: PlaySteps, q: Position)
    requires TurnOnBoard(g, s) && InBounds(g, q) && !Occupied(g, q)
    ensures q !in s.positions
  {
    forall x | 0 <= x < s.Length() ensures s.positions[x] != q {
      assert At(g, s.positions[x]) == Some(s.tiles[x]);
    }
  }

  /** Placing the next move keeps every move of the turn on the board. */
  lemma TurnOnBoardPlace(g: Grid, s: PlaySteps, t: Tile, q: Position)
    requires TurnOnBoard(g, s) && InBounds(g, q) && q !in s.positions
    ensures TurnOnBoard(Place(g, t, q), s.Append(t, q))
  {
    var g', s' := Place(g, t, q), s.Append(t, q);
    forall x | 0 <= x < s'.Length()
      ensures InBounds(g', s'.positions[x]) && At(g', s'.positions[x]) == Some(s'.tiles[x])
    {
      if x < s.Length() {
        assert s'.positions[x] == s.positions[x] && s'.tiles[x] == s.tiles[x];
      }
    }
  }

  /** Swapping index `i` into slot `k` extends the committed prefix by `hand[i]`. */
  lemma SwapPrefix(hand: seq<Tile>, k: nat, i: nat)
    requires k <= i < |hand|
    ensures Swap(hand, k, i)[..k + 1] == hand[..k] + [hand[i]]
  {
    var swapped := Swap(hand, k, i);
    assert forall x | 0 <= x < k :: swapped[x] == hand[x];
  }

  lemma DistinctAppend(ps: seq<Position>, q: Position)
    requires Distinct(ps) && q !in ps
    ensures Distinct(ps + [q])
  {
    var ps' := ps + [q];
    forall x, y | 0 <= x < y < |ps'| ensures ps'[x] != ps'[y] {
      assert ps'[x] == ps[x];
      if y < |ps| {
        assert ps'[y] == ps[y];
      }
    }
  }

  /** The plays recorded one level deeper are sound at this level. */
  lemma LiftPlays(g: Grid, hand: seq<Tile>, k: nat, s: PlaySteps, i: nat, tile: Tile, q: Position, plays: seq<PlaySteps>)
    requires IsGrid(g) && s.Valid() && s.Length() == k && k <= i < |hand| && IsValidMove(g, tile, q)
    requires Sound(g, hand, s, s.Append(tile, q))
    requires forall r | r in plays :: Sound(Place(g, tile, q), Swap(hand, k, i), s.Append(tile, q), r)
    ensures forall r | r in [s.Append(tile, q)] + plays :: Sound(g, hand, s, r) && r.Length() > k
  {
    var g', s', swapped := Place(g, tile, q), s.Append(tile, q), Swap(hand, k, i);
    forall r | r in plays ensures Sound(g, hand, s, r) && r.Length() > k {
      LiftOne(g, g', hand, swapped, s, s', tile, q, r);
    }
  }

  /** The turn just extended by `tile` at `q` is itself a sound play. */
  lemma NewTurnSound(g: Grid, hand: seq<Tile>, k: nat, s: PlaySteps, i: nat, tile: Tile, q: Position)
    requires IsGrid(g) && s.Valid() && s.Length() == k && k <= i < |hand| && hand[i] == tile && s.tiles == hand[..k]
    requires LegalFrom(g, [tile], [q]) && Aligned(s.Append(tile, q).positions)
    ensures Sound(g, hand, s, s.Append(tile, q)) && s.Append(tile, q).Length() > k
  {
    AppendExtends(s, tile, q);
    TurnTilesInHand(hand, k, i, s, tile, q);
  }

  /** A legal move on its own is a legal sequence of one move. */
  lemma OneMoveLegal(g: Grid, t: Tile, q: Position)
    requires IsGrid(g) && IsValidMove(g, t, q)
    ensures LegalFrom(g, [t], [q])
  {
    assert [t][1..] == [] && [q][1..] == [];
  }

  /** The committed prefix plus the tile at index `i` are tiles of the hand. */
  lemma TurnTilesInHand(hand: seq<Tile>, k: nat, i: nat, s: PlaySteps, tile: Tile, q: Position)
    requires s.Valid() && k <= i < |hand| && hand[i] == tile && s.tiles == hand[..k]
    ensures multiset(s.Append(tile, q).tiles) <= multiset(hand)
  {
    SwapPrefix(hand, k, i);
    PrefixMultiset(Swap(hand, k, i), k + 1);
  }

  /** A play recorded after `s'` = `s` plus one move is, seen from `s`, one legal move longer. */
  lemma LiftOne(g: Grid, g': Grid, hand: seq<Tile>, swapped: seq<Tile>, s: PlaySteps, s': PlaySteps, tile: Tile, q: Position, r: PlaySteps)
    requires IsGrid(g) && s.Valid() && IsValidMove(g, tile, q)
    requires g' == Place(g, tile, q) && s' == s.Append(tile, q)
    requires |swapped| == |hand| && multiset(swapped) == multiset(hand)
    requires Sound(g', swapped, s', r)
    ensures Sound(g, hand, s, r) && r.Length() > s.Length()
  {
    ExtendsAppendInv(r, s, tile, q);
    LegalFromCons(g, r.tiles[|s.tiles|..], r.positions[|s.tiles|..]);
  }

  lemma AppendExtends(s: PlaySteps, t: Tile, q: Position)
    requires s.Valid()
    ensures Extends(s.Append(t, q), s)
    ensures s.Append(t, q).tiles[|s.tiles|..] == [t] && s.Append(t, q).positions[|s.tiles|..] == [q]
  {
  }

  /** Extending `s` plus one move means extending `s`, with that move next. */
  lemma ExtendsAppendInv(r: PlaySteps, s: PlaySteps, t: Tile, q: Position)
    requires s.Valid() && Extends(r, s.Append(t, q))
    ensures Extends(r, s) && r.Length() > s.Length()
    ensures r.tiles[|s.tiles|..][0] == t && r.positions[|s.tiles|..][0] == q
    ensures r.tiles[|s.tiles|..][1..] == r.tiles[|s.tiles| + 1..]
    ensures r.positions[|s.tiles|..][1..] == r.positions[|s.tiles| + 1..]
  {
    var k := |s.tiles|;
    assert r.tiles[..k] == r.tiles[..k + 1][..k];
    assert r.positions[..k] == r.positions[..k + 1][..k];
    assert r.tiles[k] == r.tiles[..k + 1][k];
    assert r.positions[k] == r.positions[..k + 1][k];
  }

  /** A legal first move followed by a sequence legal after it is legal. */
  lemma LegalFromCons(g: Grid, ts: seq<Tile>, ps: seq<Position>)
    requires IsGrid(g) && |ts| == |ps| >= 1 && IsValidMove(g, ts[0], ps[0])
    requires LegalFrom(Place(g, ts[0], ps[0]), ts[1..], ps[1..])
    ensures LegalFrom(g, ts, ps)
  {
  }

  lemma PrefixMultiset(h: seq<Tile>, n: nat)
    requires n <= |h|
    ensures multiset(h[..n]) <= multiset(h)
  {
    assert h == h[..n] + h[n..];
  }

  /** Recording `s'`, then the deeper plays, then the rest keeps the prefixes closed. */
  lemma PrefixClosedStep(s: PlaySteps, s': PlaySteps, deeper: seq<PlaySteps>, rest: seq<PlaySteps>)
    requires s.Valid() && s'.Valid() && s'.Length() == s.Length() + 1
    requires forall r | r in deeper :: r.Valid() && s'.Length() <= r.Length()
               && r.tiles[..s'.Length()] == s'.tiles && r.positions[..s'.Length()] == s'.positions
               && r.points == s'.points
    requires PrefixClosed(deeper, s') && PrefixClosed(rest, s)
    ensures PrefixClosed([s'] + deeper + rest, s)
  {
    var all := [s'] + deeper + rest;
    forall r, n | r in all && r.Valid() && s.Length() < n <= r.Length() ensures r.Truncate(n) in all {
      if r == s' {
        assert r.Truncate(n) == s';
      } else if r in deeper {
        if n == s'.Length() {
          assert r.Truncate(n) == s';
        } else {
          assert r.Truncate(n) in deeper;
        }
      } else {
        assert r in rest;
        assert r.Truncate(n) in rest;
      }
    }
  }

  // ---------------------------------------------------------------------------
  // Duplicate records of whole-hand plays

  /**
   Each legal cell among `cands`, in order, contributes the turn `s` plus
   `tile` there twice: once as a partial play (bot.py:84) and once more as the
   whole-hand play of the level below (bot.py:64).
   */
  function Doubled(g: Grid, s: PlaySteps, tile: Tile, cands: seq<Position>): (plays: seq<PlaySteps>)
    requires IsGrid(g) && s.Valid()
    requires forall q | q in cands :: InBounds(g, q)
    decreases |cands|
  {
    if |cands| == 0 then []
    else if IsValidMove(g, tile, cands[0]) then
      [s.Append(tile, cands[0]), s.Append(tile, cands[0])] + Doubled(g, s, tile, cands[1..])
    else Doubled(g, s, tile, cands[1..])
  }

  /** When the tile placed is the last uncommitted one, every legal cell is recorded twice, back to back. */
  lemma {:induction false} LastTileDoubled(g: Grid, hand: seq<Tile>, k: nat, s: PlaySteps, i: nat, tile: Tile, cands: seq<Position>)
    requires SearchState(g, hand, k, s) && k <= i < |hand| && hand[i] == tile && k + 1 == |hand|
    requires forall q | q in cands :: InBounds(g, q) && !Occupied(g, q) && Allows(RestrictionFor(g, s), q)
    ensures TryPositions(g, hand, k, s, i, tile, cands).plays == Doubled(g, s, tile, cands)
    decreases |cands|
  {
    if |cands| > 0 {
      LastTileDoubled(g, hand, k, s, i, tile, cands[1..]);
      LastTileStep(g, hand, k, s, i, tile, cands);
    }
  }

  /** One round of the position loop at the last level: a legal cell adds the new turn twice, an illegal one nothing. */
  lemma LastTileStep(g: Grid, hand: seq<Tile>, k: nat, s: PlaySteps, i: nat, tile: Tile, cands: seq<Position>)
    requires SearchState(g, hand, k, s) && k <= i < |hand| && hand[i] == tile && k + 1 == |hand|
    requires forall q | q in cands :: InBounds(g, q) && !Occupied(g, q) && Allows(RestrictionFor(g, s), q)
    requires |cands| > 0
    ensures IsValidMove(g, tile, cands[0]) ==>
      TryPositions(g, hand, k, s, i, tile, cands).plays
        == [s.Append(tile, cands[0]), s.Append(tile, cands[0])] + TryPositions(g, hand, k, s, i, tile, cands[1..]).plays
    ensures !IsValidMove(g, tile, cands[0]) ==>
      TryPositions(g, hand, k, s, i, tile, cands).plays == TryPositions(g, hand, k, s, i, tile, cands[1..]).plays
  {
    if IsValidMove(g, tile, cands[0]) {
      LastTileValid(g, hand, k, s, i, tile, cands);
    }
  }

  lemma LastTileValid(g: Grid, hand: seq<Tile>, k: nat, s: PlaySteps, i: nat, tile: Tile, cands: seq<Position>)
    requires SearchState(g, hand, k, s) && k <= i < |hand| && hand[i] == tile && k + 1 == |hand|
    requires forall q | q in cands :: InBounds(g, q) && !Occupied(g, q) && Allows(RestrictionFor(g, s), q)
    requires |cands| > 0 && IsValidMove(g, tile, cands[0])
    ensures TryPositions(g, hand, k, s, i, tile, cands).plays
              == [s.Append(tile, cands[0]), s.Append(tile, cands[0])] + TryPositions(g, hand, k, s, i, tile, cands[1..]).plays
  {
    var q := cands[0];
    var s', swapped := s.Append(tile, q), Swap(hand, k, i);
    SwapTwice(hand, k, i);
    DeeperState(g, hand, k, s, i, tile, q);
    LastLevelWhole(Place(g, tile, q), swapped, s');
    TryPositionsPlayed(g, hand, k, s, i, tile, cands, FindValidPlays(Place(g, tile, q), swapped, k + 1, s'),
                       TryPositions(g, hand, k, s, i, tile, cands[1..]));
    PairThenRest(s', TryPositions(g, hand, k, s, i, tile, cands[1..]).plays);
  }

  lemma PairThenRest<T>(x: T, rest: seq<T>)
    ensures [x] + [x] + rest == [x, x] + rest
  {
  }

  /** One round of the position loop that plays `cands[0]`, unfolded. */
  lemma TryPositionsPlayed(g: Grid, hand: seq<Tile>, k: nat, s: PlaySteps, i: nat, tile: Tile, cands: seq<Position>,
                           deeper: SearchResult, rest: SearchResult)
    requires PositionLoop(g, hand, k, s, i, tile, cands) && |cands| > 0 && IsValidMove(g, tile, cands[0])
    requires SearchState(Place(g, tile, cands[0]), Swap(hand, k, i), k + 1, s.Append(tile, cands[0]))
    requires deeper == FindValidPlays(Place(g, tile, cands[0]), Swap(hand, k, i), k + 1, s.Append(tile, cands[0]))
    requires rest == TryPositions(g, hand, k, s, i, tile, cands[1..]) && Swap(deeper.hand, k, i) == hand
    ensures TryPositions(g, hand, k, s, i, tile, cands).plays == [s.Append(tile, cands[0])] + deeper.plays + rest.plays
  {
  }

  /** With the whole hand committed the search records the turn once and hands the hand back. */
  lemma LastLevelWhole(g: Grid, hand: seq<Tile>, s: PlaySteps)
    requires SearchState(g, hand, |hand|, s)
    ensures FindValidPlays(g, hand, |hand|, s) == SearchResult([s], hand)
  {
  }

  /**
   With a one-tile hand the search records no empty play and lists every
   legal first move twice in a row, once per played cell it neighbours.
   */
  lemma OneTileHand(g: Grid, t: Tile)
    requires IsGrid(g)
    ensures FindAllPlays(g, [t]).plays == Doubled(g, Empty(), t, PlayablePositions(g, Empty()))
  {
    var s := Empty();
    var cands := PlayablePositions(g, s);
    assert SearchState(g, [t], 0, s);
    LastTileDoubled(g, [t], 0, s, 0, t, cands);
    var first := TryPositions(g, [t], 0, s, 0, t, cands);
    assert TryTiles(g, first.hand, 0, s, 1, cands).plays == [];
    assert TryTiles(g, [t], 0, s, 0, cands).plays == first.plays;
    assert FindValidPlays(g, [t], 0, s).plays == first.plays;
  }

  // ---------------------------------------------------------------------------
  // Completeness: every turn the rules and the hand allow is recorded

  /**
   `ts`/`ps` is a turn the search could play from board `g` and turn `s`,
   drawing tiles from `avail`: each tile is still available when it is used,
   each cell is among the playable positions of the board and turn before it,
   and each move passes `IsValidMove` there.
   */
  ghost predicate LegalPath(g: Grid, s: PlaySteps, avail: multiset<Tile>, ts: seq<Tile>, ps: seq<Position>)
    decreases |ts|
  {
    && |ts| == |ps| && TurnOnBoard(g, s)
    && (|ts| == 0 || (
          && ts[0] in avail
          && ps[0] in PlayablePositions(g, s)
          && IsValidMove(g, ts[0], ps[0])
          && LegalPath(Place(g, ts[0], ps[0]), s.Append(ts[0], ps[0]), avail - multiset{ts[0]}, ts[1..], ps[1..])))
  }

  /** The turn `s` followed by the moves `ts`/`ps`. */
  function Extend(s: PlaySteps, ts: seq<Tile>, ps: seq<Position>): (r: PlaySteps)
    requires s.Valid() && |ts| == |ps|
    ensures r.Valid() && Extends(r, s) && r.Length() == s.Length() + |ts|
    ensures r.tiles[|s.tiles|..] == ts && r.positions[|s.tiles|..] == ps
  {
    var r := PlaySteps(s.tiles + ts, s.positions + ps, s.points);
    assert r.tiles[..|s.tiles|] == s.tiles && r.positions[..|s.tiles|] == s.positions;
    r
  }

  /**
   The search is complete: from a fresh accumulator, every non-empty turn that
   plays tiles of the hand (each at most as often as the hand holds it), one
   legal move after another on playable cells, is recorded.
   */
  lemma FindAllPlaysComplete(g: Grid, hand: seq<Tile>, ts: seq<Tile>, ps: seq<Position>)
    requires IsGrid(g) && |ts| >= 1
    requires LegalPath(g, Empty(), multiset(hand), ts, ps)
    ensures PlaySteps(ts, ps, 0) in FindAllPlays(g, hand).plays
  {
    var s := Empty();
    assert SearchState(g, hand, 0, s);
    assert hand[0..] == hand;
    SearchComplete(g, hand, 0, s, ts, ps);
    assert Extend(s, ts, ps) == PlaySteps(ts, ps, 0);
  }

  /** At depth `k`, every legal continuation using uncommitted tiles is recorded. */
  lemma {:induction false} SearchComplete(g: Grid, hand: seq<Tile>, k: nat, s: PlaySteps, ts: seq<Tile>, ps: seq<Position>)
    requires SearchState(g, hand, k, s)
    requires |ts| >= 1 && LegalPath(g, s, multiset(hand[k..]), ts, ps)
    ensures Extend(s, ts, ps) in FindValidPlays(g, hand, k, s).plays
    decreases |ts|
  {
    LegalPathStep(g, s, multiset(hand[k..]), ts, ps);
    var i := HandIndex(hand, k, ts[0]);
    if |ts| == 1 {
      ExtendOne(s, ts, ps);
      FirstMoveRecorded(g, hand, k, s, i, ps[0]);
    } else {
      var t, q := ts[0], ps[0];
      PlayableFacts(g, s, q);
      DeeperState(g, hand, k, s, i, t, q);
      SwapRestMultiset(hand, k, i);
      var s' := s.Append(t, q);
      SearchComplete(Place(g, t, q), Swap(hand, k, i), k + 1, s', ts[1..], ps[1..]);
      DeeperRecorded(g, hand, k, s, i, ts, ps, Extend(s', ts[1..], ps[1..]));
    }
  }

  /** Unfolding `LegalPath` at its first move. */
  lemma LegalPathStep(g: Grid, s: PlaySteps, avail: multiset<Tile>, ts: seq<Tile>, ps: seq<Position>)
    requires |ts| >= 1 && LegalPath(g, s, avail, ts, ps)
    ensures TurnOnBoard(g, s) && |ts| == |ps|
    ensures ts[0] in avail && ps[0] in PlayablePositions(g, s) && IsValidMove(g, ts[0], ps[0])
    ensures LegalPath(Place(g, ts[0], ps[0]), s.Append(ts[0], ps[0]), avail - multiset{ts[0]}, ts[1..], ps[1..])
  {
  }

  /** A tile among the uncommitted ones sits at some index from `k` on. */
  lemma HandIndex(hand: seq<Tile>, k: nat, t: Tile) returns (i: nat)
    requires k <= |hand| && t in multiset(hand[k..])
    ensures k <= i < |hand| && hand[i] == t
  {
    assert t in hand[k..];
    var x :| 0 <= x < |hand[k..]| && hand[k..][x] == t;
    i := k + x;
  }

  /** A playable cell is on the board, empty, and allowed by the turn's restriction. */
  lemma PlayableFacts(g: Grid, s: PlaySteps, q: Position)
    requires TurnOnBoard(g, s) && q in PlayablePositions(g, s)
    ensures InBounds(g, q) && !Occupied(g, q) && Allows(RestrictionFor(g, s), q)
  {
  }

  /** A legal one-move continuation is recorded. */
  lemma FirstMoveRecorded(g: Grid, hand: seq<Tile>, k: nat, s: PlaySteps, i: nat, q: Position)
    requires SearchState(g, hand, k, s) && k <= i < |hand|
    requires q in PlayablePositions(g, s) && IsValidMove(g, hand[i], q)
    ensures s.Append(hand[i], q) in FindValidPlays(g, hand, k, s).plays
  {
  }

  lemma ExtendOne(s: PlaySteps, ts: seq<Tile>, ps: seq<Position>)
    requires s.Valid() && |ts| == |ps| == 1
    ensures Extend(s, ts, ps) == s.Append(ts[0], ps[0])
  {
    assert ts == [ts[0]] && ps == [ps[0]];
  }

  /** What the level below records after the first move is recorded here too. */
  lemma DeeperRecorded(g: Grid, hand: seq<Tile>, k: nat, s: PlaySteps, i: nat, ts: seq<Tile>, ps: seq<Position>, r: PlaySteps)
    requires |ts| == |ps| >= 2 && SearchState(g, hand, k, s) && k <= i < |hand| && hand[i] == ts[0]
    requires ps[0] in PlayablePositions(g, s) && IsValidMove(g, ts[0], ps[0])
    requires SearchState(Place(g, ts[0], ps[0]), Swap(hand, k, i), k + 1, s.Append(ts[0], ps[0]))
    requires r == Extend(s.Append(ts[0], ps[0]), ts[1..], ps[1..])
    requires r in FindValidPlays(Place(g, ts[0], ps[0]), Swap(hand, k, i), k + 1, s.Append(ts[0], ps[0])).plays
    ensures Extend(s, ts, ps) in FindValidPlays(g, hand, k, s).plays
  {
    ExtendStep(s, ts, ps);
    RecordedBelow(g, hand, k, s, i, ps[0], r);
  }

  /** A play recorded after committing `hand[i]` at a legal playable cell `q` is recorded at this level. */
  lemma RecordedBelow(g: Grid, hand: seq<Tile>, k: nat, s: PlaySteps, i: nat, q: Position, r: PlaySteps)
    requires SearchState(g, hand, k, s) && k <= i < |hand|
    requires q in PlayablePositions(g, s) && IsValidMove(g, hand[i], q)
    requires SearchState(Place(g, hand[i], q), Swap(hand, k, i), k + 1, s.Append(hand[i], q))
    requires r in FindValidPlays(Place(g, hand[i], q), Swap(hand, k, i), k + 1, s.Append(hand[i], q)).plays
    ensures r in FindValidPlays(g, hand, k, s).plays
  {
    var cands := PlayablePositions(g, s);
    PlayableFacts(g, s, q);
    TryPositionsCovers(g, hand, k, s, i, hand[i], cands, q, r);
    var mid := TryPositions(g, hand, k, s, i, hand[i], cands).plays;
    var pre, post := TryTilesContains(g, hand, k, s, k, cands, i, mid);
    InMiddle(r, pre, mid, post, TryTiles(g, hand, k, s, k, cands).plays);
  }

  /** Extending by the first move and then by the rest is extending by all of them. */
  lemma ExtendStep(s: PlaySteps, ts: seq<Tile>, ps: seq<Position>)
    requires s.Valid() && |ts| == |ps| >= 1
    ensures Extend(s.Append(ts[0], ps[0]), ts[1..], ps[1..]) == Extend(s, ts, ps)
  {
    assert s.tiles + [ts[0]] + ts[1..] == s.tiles + ts;
    assert s.positions + [ps[0]] + ps[1..] == s.positions + ps;
  }

  /** After the swap, the uncommitted tiles are those of before less the one just committed. */
  lemma SwapRestMultiset(hand: seq<Tile>, k: nat, i: nat)
    requires k <= i < |hand|
    ensures multiset(Swap(hand, k, i)[k + 1..]) == multiset(hand[k..]) - multiset{hand[i]}
  {
    var h := Swap(hand, k, i);
    assert hand == hand[..k] + hand[k..];
    assert h == h[..k] + h[k..];
    assert h[k..] == [h[k]] + h[k + 1..];
    assert h[..k] == hand[..k];
    MultisetCancel(multiset(hand[..k]), multiset(hand[k..]), multiset(h[k..]));
    MultisetTakeOne(multiset(hand[k..]), hand[i], multiset(h[k + 1..]));
  }

  lemma MultisetCancel<T>(a: multiset<T>, b: multiset<T>, c: multiset<T>)
    requires a + b == a + c
    ensures b == c
  {
    assert forall x :: b[x] == (a + b)[x] - a[x];
  }

  lemma MultisetTakeOne<T>(a: multiset<T>, x: T, c: multiset<T>)
    requires a == multiset{x} + c
    ensures c == a - multiset{x}
  {
  }

  /** A legal cell contributes everything recorded one level below it to the position loop. */
  lemma {:induction false} TryPositionsCovers(g: Grid, hand: seq<Tile>, k: nat, s: PlaySteps, i: nat, tile: Tile,
                                              cands: seq<Position>, q: Position, r: PlaySteps)
    requires SearchState(g, hand, k, s) && k <= i < |hand| && hand[i] == tile
    requires forall c | c in cands :: InBounds(g, c) && !Occupied(g, c) && Allows(RestrictionFor(g, s), c)
    requires q in cands && IsValidMove(g, tile, q)
    requires SearchState(Place(g, tile, q), Swap(hand, k, i), k + 1, s.Append(tile, q))
    requires r in FindValidPlays(Place(g, tile, q), Swap(hand, k, i), k + 1, s.Append(tile, q)).plays
    ensures r in TryPositions(g, hand, k, s, i, tile, cands).plays
    decreases |cands|
  {
    var c := cands[0];
    var rest := TryPositions(g, hand, k, s, i, tile, cands[1..]);
    if IsValidMove(g, tile, c) {
      SwapTwice(hand, k, i);
      DeeperState(g, hand, k, s, i, tile, c);
      var deeper := FindValidPlays(Place(g, tile, c), Swap(hand, k, i), k + 1, s.Append(tile, c));
      TryPositionsPlayed(g, hand, k, s, i, tile, cands, deeper, rest);
      if c != q {
        TryPositionsCovers(g, hand, k, s, i, tile, cands[1..], q, r);
      }
    } else {
      TryPositionsCovers(g, hand, k, s, i, tile, cands[1..], q, r);
      TryPositionsSkip(g, hand, k, s, i, tile, cands);
    }
  }

  /** An illegal cell adds nothing to the position loop. */
  lemma TryPositionsSkip(g: Grid, hand: seq<Tile>, k: nat, s: PlaySteps, i: nat, tile: Tile, cands: seq<Position>)
    requires SearchState(g, hand, k, s) && k <= i < |hand| && hand[i] == tile
    requires forall c | c in cands :: InBounds(g, c) && !Occupied(g, c) && Allows(RestrictionFor(g, s), c)
    requires |cands| > 0 && !IsValidMove(g, tile, cands[0])
    ensures TryPositions(g, hand, k, s, i, tile, cands) == TryPositions(g, hand, k, s, i, tile, cands[1..])
  {
  }

  /** The tile loop from index `i` on contains, as a contiguous block, what the position loop of each later index records. */
  lemma {:induction false} TryTilesContains(g: Grid, hand: seq<Tile>, k: nat, s: PlaySteps, i: nat, cands: seq<Position>, j: nat, mid: seq<PlaySteps>)
    returns (pre: seq<PlaySteps>, post: seq<PlaySteps>)
    requires SearchState(g, hand, k, s) && k <= i <= j < |hand|
    requires forall c | c in cands :: InBounds(g, c) && !Occupied(g, c) && Allows(RestrictionFor(g, s), c)
    requires mid == TryPositions(g, hand, k, s, j, hand[j], cands).plays
    ensures TryTiles(g, hand, k, s, i, cands).plays == pre + mid + post
    decreases j - i
  {
    if i == j {
      pre := [];
      post := TryTilesFront(g, hand, k, s, i, cands, mid);
    } else {
      var p;
      p, post := TryTilesContains(g, hand, k, s, i + 1, cands, j, mid);
      pre := TryTilesPrepend(g, hand, k, s, i, cands, p, mid, post);
    }
  }

  /** The tile loop from index `i` on starts with the block for index `i`. */
  lemma TryTilesFront(g: Grid, hand: seq<Tile>, k: nat, s: PlaySteps, i: nat, cands: seq<Position>, mid: seq<PlaySteps>)
    returns (post: seq<PlaySteps>)
    requires SearchState(g, hand, k, s) && k <= i < |hand|
    requires forall c | c in cands :: InBounds(g, c) && !Occupied(g, c) && Allows(RestrictionFor(g, s), c)
    requires mid == TryPositions(g, hand, k, s, i, hand[i], cands).plays
    ensures TryTiles(g, hand, k, s, i, cands).plays == [] + mid + post
  {
    var first;
    first, post := TryTilesSplit(g, hand, k, s, i, cands);
    assert [] + mid + post == first + post;
  }

  /** A split of the tile loop from `i + 1` on extends to one from `i` on, with the block for index `i` in front. */
  lemma TryTilesPrepend(g: Grid, hand: seq<Tile>, k: nat, s: PlaySteps, i: nat, cands: seq<Position>,
                        p: seq<PlaySteps>, mid: seq<PlaySteps>, post: seq<PlaySteps>)
    returns (pre: seq<PlaySteps>)
    requires SearchState(g, hand, k, s) && k <= i < |hand|
    requires forall c | c in cands :: InBounds(g, c) && !Occupied(g, c) && Allows(RestrictionFor(g, s), c)
    requires TryTiles(g, hand, k, s, i + 1, cands).plays == p + mid + post
    ensures TryTiles(g, hand, k, s, i, cands).plays == pre + mid + post
  {
    var first, rest := TryTilesSplit(g, hand, k, s, i, cands);
    pre := first + p;
    JoinAssoc(TryTiles(g, hand, k, s, i, cands).plays, first, rest, p, mid, post);
  }

  lemma JoinAssoc<T>(whole: seq<T>, a: seq<T>, rest: seq<T>, b: seq<T>, c: seq<T>, d: seq<T>)
    requires whole == a + rest && rest == b + c + d
    ensures whole == (a + b) + c + d
  {
  }

  /** An element of the middle block is an element of the whole. */
  lemma InMiddle<T>(x: T, a: seq<T>, b: seq<T>, c: seq<T>, whole: seq<T>)
    requires whole == a + b + c && x in b
    ensures x in whole
  {
  }

  /** The tile loop at index `i` is the position loop for `hand[i]` followed by the tile loop from `i + 1`. */
  lemma TryTilesSplit(g: Grid, hand: seq<Tile>, k: nat, s: PlaySteps, i: nat, cands: seq<Position>)
    returns (first: seq<PlaySteps>, rest: seq<PlaySteps>)
    requires SearchState(g, hand, k, s) && k <= i < |hand|
    requires forall c | c in cands :: InBounds(g, c) && !Occupied(g, c) && Allows(RestrictionFor(g, s), c)
    ensures first == TryPositions(g, hand, k, s, i, hand[i], cands).plays
    ensures rest == TryTiles(g, hand, k, s, i + 1, cands).plays
    ensures TryTiles(g, hand, k, s, i, cands).plays == first + rest
  {
    first := TryPositions(g, hand, k, s, i, hand[i], cands).plays;
    rest := TryTiles(g, hand, k, s, i + 1, cands).plays;
  }

  // ---------------------------------------------------------------------------
  // An empty board

  /**
   On a board without tiles nothing is playable, so a non-empty hand records
   no play at all; the one-column first-move rule of `IsValidMove` is never
   consulted by the search.
   */
  lemma EmptyBoardNoPlays(g: Grid, hand: seq<Tile>)
    requires IsGrid(g) && |hand| >= 1
    requires forall i, c | 0 <= i < Height(g) && 0 <= c < Width(g) :: g[i][c].None?
    ensures PlayablePositions(g, Empty()) == []
    ensures FindAllPlays(g, hand).plays == []
  {
    var s := Empty();
    EmptyBoardNothingPlayable(g, s);
    assert SearchState(g, hand, 0, s);
    NoCandidatesNoPlays(g, hand, 0, s, 0);
  }

  /** On a board without tiles no cell is playable. */
  lemma EmptyBoardNothingPlayable(g: Grid, s: PlaySteps)
    requires TurnOnBoard(g, s)
    requires forall i, c | 0 <= i < Height(g) && 0 <= c < Width(g) :: g[i][c].None?
    ensures PlayablePositions(g, s) == []
  {
    NoTilesNothingPlayed(g);
    var out := PlayablePositions(g, s);
    assert |out| > 0 ==> multiset(out)[out[0]] > 0;
  }

  lemma NoTilesNothingPlayed(g: Grid)
    requires IsGrid(g)
    requires forall i, c | 0 <= i < Height(g) && 0 <= c < Width(g) :: g[i][c].None?
    ensures PlayedPositions(g) == []
  {
    NoMemberEmpty(PlayedPositions(g));
  }

  lemma NoMemberEmpty<T>(xs: seq<T>)
    requires forall x :: x !in xs
    ensures xs == []
  {
    forall x
      ensures multiset(xs)[x] == 0
    {
      assert x !in xs;
      assert x !in multiset(xs);
    }
    assert multiset(xs) == multiset{};
    assert |xs| == |multiset(xs)|;
  }

  lemma {:induction false} NoCandidatesNoPlays(g: Grid, hand: seq<Tile>, k: nat, s: PlaySteps, i: nat)
    requires SearchState(g, hand, k, s) && k < |hand| && k <= i <= |hand|
    ensures TryTiles(g, hand, k, s, i, []).plays == []
    decreases |hand| - i
  {
    if i < |hand| {
      NoCandidatesNoPlays(g, hand, k, s, i + 1);
    }
  }
}
