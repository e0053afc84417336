# Qwirkle bot: placement rules and turn search

This project models the core of a small Qwirkle-playing bot. The core has three parts.

- **Placement rules.** A line of tiles is legal when its tiles share a shape or share a colour and no tile repeats. A move is legal when the cell is on the board, empty and next to a placed tile, and when the horizontal and vertical lines the tile would join are both legal. On a board one column wide, the only legal cell is (0, 0), whatever the board holds (bot.py:245-247). The search never reaches that rule on a board without tiles: its candidates are the empty neighbours of played cells (bot.py:136-139), so it tries no cell at all there (`Search.EmptyBoardNoPlays`). When a tile touches an edge, the board grows by an empty border row or column.
- **Turn search.** The bot enumerates every turn it could play from its hand by backtracking. Candidate cells are the empty neighbours of played cells. After the first move they are narrowed to the row or column the turn has committed to. Each legal partial turn is recorded.
- **Move accumulator.** `PlaySteps` holds two parallel stacks, tiles and positions, plus a point total.

Modules:

- `Tiles`: tiles as `(shape, colour)` values over six shapes and six colours, positions, and orthogonal adjacency.
- `Lines`: `is_valid_line` as a scan (`IsValidLine`), and the rule of the game it decides (`LegalLine`).
- `Board`: the board as a grid of optional tiles, the outward scans that build the two lines through a cell, move legality, the empty neighbours of a cell, and the played cells.
- `Padding`: `adjust_padding`.
- `Steps`: `PlaySteps`.
- `Restrictions`: `TileRestriction`, `filter_positions`, `get_tile_position` and `get_playable_positions`.
- `Search`: `swap` and `find_valid_plays`. Its two nested loops become the mutually recursive functions `TryTiles` and `TryPositions`.
- `Scenarios`: the board and hand the bot sets up for itself (a blue square in the middle of a 3x3 board; a blue circle, a red square and a blue star). It works out which first moves are legal there and exactly what the search records for a one-tile hand. These results take the played cells to be the occupied cells of the grid (`Board.PlayedPositions`). The source builds that board with an empty `played_positions` list (board.py:7, bot.py:34-36), so as written its search finds no candidate cell there.

The board is a value. A placement yields a new grid, so the source's snapshot and restore of the board (bot.py:78, 93) need no counterpart: the caller's grid never changes. The accumulator is a value too. `Steps.PopAfterAppend` shows that the source's pop after each trial gives back exactly the turn it had before. The hand is threaded through the recursion and swapped exactly as the source swaps it. Its restoration is therefore a proved postcondition.

Two behaviours of the code are easy to misread:

- When the first two tiles of a line share both shape and colour, colour overwrites shape (bot.py:367-372). `Lines.TieBreakIrrelevant` proves that choosing shape instead gives the same verdict.
- A one-tile hand records no empty play, because the empty turn is recorded only at `hand_index == len(hand)` (bot.py:62-64). It records each legal first move twice: once as a partial play (bot.py:84) and once as the whole-hand play one level down (bot.py:64). A cell next to several played cells is listed once per such neighbour. `Search.OneTileHand` states this, and `Scenarios.FixtureBlueCircleAlone` works it out on the fixture board.

## Model

| member | source | states |
|---|---|---|
| Lines.CommonAspect | bot.py:364-376 | The aspect chosen from the first two tiles is absent exactly when they share neither shape nor colour; otherwise both tiles carry it; and a shared colour always wins. |
| Lines.ScanLine | bot.py:378-395 | The scan succeeds exactly when every tile from the current index on carries the governing value and no tile from that index on repeats an earlier one. |
| Lines.IsValidLine | bot.py:349-395 | `is_valid_line` holds exactly when the line has at most one tile, or all its tiles share one shape or all share one colour and no two of them are equal. |
| Lines.IsValidLineOrderFree | board.py:117-154 | Reordering a line (any permutation of it) does not change whether it is valid. |
| Lines.DuplicateMakesInvalid | bot.py:379-392 | A line in which some tile occurs twice is invalid. |
| Lines.IncompatiblePairMakesInvalid | bot.py:374-376 | A line whose first two tiles share neither shape nor colour is invalid. |
| Lines.TieBreakIrrelevant | bot.py:367-372 | On every line whose first two tiles share a shape, scanning by that shape gives the same verdict as the source's choice, which lets a shared colour overwrite it. |
| Board.Place | bot.py:79 | Placing a tile puts it in the given cell, keeps the grid's dimensions, and leaves every other cell as it was. |
| Board.Run | bot.py:305-315 | Each outward scan returns the maximal run of occupied cells from the neighbour on, in the order of the walk; the cell just past it is empty or off the grid. |
| Board.MaximalRunUnique | board.py:88-98 | There is only one maximal run from a cell in a direction, so the scan's result is determined by the board. |
| Board.HorizontalLine | bot.py:289-316 | The line starts with the candidate tile; the rest splits into a maximal run of occupied cells walking right from the neighbour, followed by a maximal run walking left. |
| Board.VerticalLine | bot.py:319-346 | The line starts with the candidate tile; the rest splits into a maximal run of occupied cells walking down from the neighbour, followed by a maximal run walking up. |
| Board.HorizontalLineOfRuns | bot.py:289-316 | The horizontal line is the candidate tile, then the maximal run to its right, then the maximal run to its left. |
| Board.VerticalLineOfRuns | board.py:101-115 | The vertical line is the candidate tile, then the maximal run below it, then the maximal run above it. |
| Board.HasOccupiedNeighbour | bot.py:262-269 | The neighbour check holds exactly when some orthogonal neighbour is on the board and occupied. |
| Board.IsValidMove | board.py:36-56 | A legal move is on the board; on a board one column wide, a move is legal exactly at (0, 0), whatever the board holds. |
| Board.IsValidMoveIff | bot.py:245-286 | On a board wider than one column, a move is legal exactly when the cell is on the board and empty, has an occupied orthogonal neighbour, and both lines through it obey the rule of the game. |
| Board.AdjacentEmptyPositions | bot.py:196-227 | At most four positions, each an empty on-board orthogonal neighbour; every such neighbour is listed; they come strictly in the order left, right, up, down, so none repeats. |
| Board.PlayedPositions | bot.py:136-139 | The cells whose neighbours the candidate loop visits are exactly the occupied cells of the board, each listed once. The source's own list agrees only for a board filled through `play_tile` (see Left out). |
| Padding.AdjustPadding | board.py:9-34 | The result holds the original grid shifted down one row when a row was added on top and right one column when a column was added on the left, with every new cell empty. Each dimension grows by the number of its edges that held a tile (0, 1 or 2), and the outer ring of the result is empty. |
| Padding.AdjustPaddingNoOp | board.py:13-34 | A grid whose outer ring is already empty is returned unchanged. |
| Padding.AdjustPaddingIdempotent | board.py:9-34 | Padding twice gives the same grid as padding once. |
| Padding.AdjustPaddingNoTiles | board.py:13-31 | A grid holding no tile is returned unchanged. |
| Padding.AdjustPaddingSingleTile | board.py:9-34 | A 1x1 grid holding a tile becomes a 3x3 grid with that tile in the middle and nothing else. |
| Steps.PlaySteps.Length | play_steps.py:39-40 | The length is the number of tiles and equally the number of positions; it is zero exactly for the empty accumulator. |
| Steps.PlaySteps.Append | play_steps.py:21-30 | Both stacks grow by exactly one, with the new tile and position on top, the earlier entries unchanged and the points untouched. |
| Steps.PlaySteps.Pop | play_steps.py:32-37 | On an empty accumulator the pop fails; otherwise both stacks lose exactly their top entry and the points are untouched. |
| Steps.Empty | play_steps.py:13-19 | A new accumulator holds no moves and no points. |
| Steps.PopAfterAppend | play_steps.py:29-37 | Popping right after appending gives back exactly the previous accumulator. |
| Steps.AppendAfterPop | play_steps.py:29-37 | Pushing back the entries a pop removed restores the accumulator. |
| Restrictions.FilterPositions | bot.py:163-193 | Without a restriction the list is returned unchanged. Otherwise the result is an order-preserving sublist that keeps every allowed position as often as it was listed and drops every other one. |
| Restrictions.FirstTilePosition | bot.py:146-160 | The anchor is the cell of the turn's first move; it is a played cell and holds the turn's first tile. The source can pick an earlier cell holding the same tile object (see Left out). |
| Restrictions.RestrictionFor | bot.py:122-134 | There is no restriction exactly for an empty turn; after one move the row or column of the first tile; after two or more, its row when the first two moves share a row, and otherwise its column. |
| Restrictions.Candidates | bot.py:136-139 | Each empty on-board cell is listed once for every played cell it neighbours, and no other cell is listed. |
| Restrictions.PlayablePositions | bot.py:110-143 | Each listed cell is empty, on the board and allowed by the turn's restriction; each such cell is listed once per played neighbour. |
| Restrictions.PlayableIff | bot.py:110-143 | A cell is playable exactly when it is on the board, empty, next to an occupied cell, and allowed by the restriction. |
| Search.Swap | bot.py:98-107 | The two entries trade places, every other entry is kept, and the hand keeps the same tiles. |
| Search.SwapTwice | bot.py:87-95 | Swapping the same two entries again gives the hand back. |
| Search.FindValidPlays | bot.py:48-95 | The hand comes back unchanged. Every recorded play extends the turn so far by moves that are each legal on the board holding the earlier ones, uses only tiles of the hand and at most all of them, and lies on one row or one column. Every prefix of a recorded play is recorded. At full depth exactly the turn is recorded. Every legal next move is recorded. |
| Search.TryTiles | bot.py:68-95 | The loop over uncommitted tiles returns the hand unchanged and records only sound, longer plays, closed under prefixes. It records every legal move of every tile from the current index on. |
| Search.TryPositions | bot.py:73-95 | The loop over playable cells returns the hand unchanged and records only sound, longer plays, closed under prefixes. It records the move of the tile to every legal cell. |
| Search.DeeperState | bot.py:76-90 | After a legal placement and the swap, the deeper call's precondition holds. The turn is on the new board, its tiles are the new committed prefix of the swapped hand, and its cells are distinct and on one line. |
| Search.FindAllPlays | bot.py:48-95 | From a fresh accumulator, every recorded play is legal move by move from the board, uses at most the hand's tiles, and lies on one row or one column. Every non-empty prefix of it is recorded. The empty play is recorded only for an empty hand. Every legal first move is recorded, and the hand comes back in its order. |
| Search.FindAllPlaysComplete | bot.py:48-95 | Every non-empty turn that plays tiles of the hand, each at most as often as the hand holds it, one legal move after another on cells the search offers, is recorded. |
| Search.SearchComplete | bot.py:62-95 | At any depth, every legal continuation of the turn so far that uses uncommitted tiles is recorded. |
| Search.EmptyBoardNoPlays | bot.py:110-143 | On a board without tiles no cell is playable, and the search from a non-empty hand records nothing. |
| Search.LastTileDoubled | bot.py:62-95 | When the tile tried is the last uncommitted one, every legal cell contributes the extended turn twice in a row, and nothing else is recorded. |
| Search.OneTileHand | bot.py:62-95 | For a one-tile hand the search records no empty play: exactly each legal first move, twice in a row, once per listing of its cell among the playable cells. |
| Scenarios.CentredCandidates | bot.py:110-143 | With one tile in the middle of a 3x3 board and no move made, the playable cells are its four neighbours, in the order left, right, up, down. |
| Scenarios.NextToCentre | bot.py:230-286 | A tile fits beside a lone centre tile exactly when it differs from it and shares its shape or its colour. |
| Scenarios.FixtureFirstMoves | bot.py:18 | On the fixture board, with its centre tile counted as played, each of its three hand tiles may open at every playable cell, while a tile matching the centre in nothing, or equal to it, may not. |
| Scenarios.FixtureBlueCircleAlone | bot.py:34-36 | On the fixture board, with its centre tile counted as played, a hand of the blue circle alone yields eight records: each of the four neighbours of the centre, twice in a row. |

## Left out

- Printing: the print loop of `play_turn` (bot.py:42-43), the diagnostic prints (board.py:50-78, bot.py:127) and the `__str__` methods produce output only.
- `Bot.__init__` and `play_turn` are not modelled as operations. Their hard-coded hand and board appear only as the `Scenarios` board and tiles. Choosing the best play is not implemented in the source (bot.py:45), and scoring is absent; `points` stays at 0.
- The source of `Tile`, `Position`, `TileRestriction` and `TurnSteps` is not part of this model. They are represented as a `(shape, colour)` datatype over six shapes and six colours, an integer pair, a four-case datatype, and `PlaySteps` itself.
- `Board.play_tile`, `get_state` and `restore_state` are not part of this model. A placement is a plain write to one cell (`Board.Place`), without padding; restoring is implicit because the board is a value.
- Python's mutable default arguments (`turn_steps=TurnSteps()` at bot.py:48, `board=[[0]]` at board.py:5) are modelled as fresh values.
- The `@staticmethod` on board.py's `is_valid_line` (board.py:117-118) makes the board's own `is_valid_move` raise a `TypeError` when it reaches a line check. The crash is not modelled; one model of the line rule serves both copies.
- Board.PlayedPositions: the model takes the played cells to be the occupied cells of the grid, in row-major order. The source keeps a separate list that `Board.__init__` starts empty (board.py:7), even for a pre-filled grid. The two agree, as sets, only on a board whose every tile was placed through `play_tile`, which is not part of this model. Even then the source lists cells in order of play, so the order of candidates and of recorded plays may differ. On a pre-filled board, such as the one `play_turn` builds, the source's search has no candidate cell and records nothing.
- Restrictions.FirstTilePosition: `get_tile_position` returns the first entry of the played-positions list, in order of play, whose cell holds the turn's first tile object (bot.py:157-159). The model returns the cell of the turn's first move. Tiles are shared module-level objects (bot.py:3, 18, 35), so the two agree only when no earlier played cell holds the same tile object. Otherwise the source anchors the restriction at that earlier cell, and different cells are offered. The `None` result and its diagnostic print cannot occur for a turn that is on the board.
- Duplicate detection by `str(tile)` (bot.py:382) is value equality of `(shape, colour)`.
