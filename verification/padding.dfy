/**
 Grid growth (board.py `Board.adjust_padding`): wherever a tile touches an
 edge of the grid, an empty row or column is added beyond that edge, so that
 every tile keeps a free cell on each side.
 */
module Padding {
  import opened Tiles
  import opened Board

  /** Python's `any(row)`: some cell of the row holds a tile. */
  predicate RowHasTile(row: seq<Cell>)
  {
    exists c | 0 <= c < |row| :: row[c].Some?
  }

  /** Some row holds a tile in column `c`. */
  predicate ColumnHasTile(g: Grid, c: int)
    requires IsGrid(g) && 0 <= c < Width(g)
  {
    exists i | 0 <= i < |g| :: g[i][c].Some?
  }

  function EmptyRow(n: nat): (row: seq<Cell>)
    ensures |row| == n && !RowHasTile(row)
  {
    seq(n, _ => None)
  }

  function Flag(b: bool): nat
  {
    if b then 1 else 0
  }

  /**
   `r` is `g` moved down by `dr` rows and right by `dc` columns inside a grid
   whose every other cell is empty.
   */
  ghost predicate Embeds(g: Grid, r: Grid, dr: nat, dc: nat)
  {
    && IsGrid(g) && IsGrid(r)
    && Height(g) + dr <= Height(r) && Width(g) + dc <= Width(r)
    && forall i, c | 0 <= i < Height(r) && 0 <= c < Width(r) ::
         r[i][c] == (if dr <= i < dr + Height(g) && dc <= c < dc + Width(g) then g[i - dr][c - dc] else None)
  }

  /** The cells on the outermost ring of the grid are all empty. */
  ghost predicate BorderEmpty(g: Grid)
    requires IsGrid(g)
  {
    forall i, c | 0 <= i < Height(g) && 0 <= c < Width(g) && (i == 0 || i == Height(g) - 1 || c == 0 || c == Width(g) - 1) ::
      g[i][c].None?
  }

  lemma EmbedsTrans(a: Grid, b: Grid, c: Grid, dr1: nat, dc1: nat, dr2: nat, dc2: nat)
    requires Embeds(a, b, dr1, dc1) && Embeds(b, c, dr2, dc2)
    ensures Embeds(a, c, dr1 + dr2, dc1 + dc2)
  {
    forall i, j | 0 <= i < Height(c) && 0 <= j < Width(c)
      ensures c[i][j] == (if dr1 + dr2 <= i < dr1 + dr2 + Height(a) && dc1 + dc2 <= j < dc1 + dc2 + Width(a)
                          then a[i - dr1 - dr2][j - dc1 - dc2] else None)
    {
      if dr2 <= i < dr2 + Height(b) && dc2 <= j < dc2 + Width(b) {
        assert c[i][j] == b[i - dr2][j - dc2];
      }
    }
  }

  /** Moving a grid inside a larger empty one does not change which rows hold tiles. */
  lemma RowTileShift(g: Grid, r: Grid, dr: nat, dc: nat, i: int)
    requires Embeds(g, r, dr, dc) && 0 <= i < Height(g)
    ensures RowHasTile(r[i + dr]) <==> RowHasTile(g[i])
  {
    if RowHasTile(r[i + dr]) {
      var c :| 0 <= c < |r[i + dr]| && r[i + dr][c].Some?;
      assert g[i][c - dc].Some?;
    }
    if RowHasTile(g[i]) {
      var c :| 0 <= c < |g[i]| && g[i][c].Some?;
      assert r[i + dr][c + dc].Some?;
    }
  }

  /** Moving a grid inside a larger empty one does not change which columns hold tiles. */
  lemma ColumnTileShift(g: Grid, r: Grid, dr: nat, dc: nat, c: int)
    requires Embeds(g, r, dr, dc) && 0 <= c < Width(g)
    ensures ColumnHasTile(r, c + dc) <==> ColumnHasTile(g, c)
  {
    if ColumnHasTile(r, c + dc) {
      var i :| 0 <= i < |r| && r[i][c + dc].Some?;
      assert g[i - dr][c].Some?;
    }
    if ColumnHasTile(g, c) {
      var i :| 0 <= i < |g| && g[i][c].Some?;
      assert r[i + dr][c + dc].Some?;
    }
  }

  /** board.py:13-14: an empty row above when the first row holds a tile. */
  function PadTop(g: Grid): (r: Grid)
    requires IsGrid(g)
    ensures Embeds(g, r, Flag(RowHasTile(g[0])), 0)
    ensures Height(r) == Height(g) + Flag(RowHasTile(g[0])) && Width(r) == Width(g)
    ensures r[Height(r) - 1] == g[Height(g) - 1]
  {
    if RowHasTile(g[0]) then [EmptyRow(Width(g))] + g else g
  }

  /** board.py:17-19: an empty row below when the last row holds a tile. */
  function PadBottom(g: Grid): (r: Grid)
    requires IsGrid(g)
    ensures Embeds(g, r, 0, 0)
    ensures Height(r) == Height(g) + Flag(RowHasTile(g[Height(g) - 1])) && Width(r) == Width(g)
  {
    if RowHasTile(g[|g| - 1]) then g + [EmptyRow(Width(g))] else g
  }

  /** board.py:22-26: an empty column on the left when the first column holds a tile. */
  function PadLeft(g: Grid): (r: Grid)
    requires IsGrid(g)
    ensures Embeds(g, r, 0, Flag(ColumnHasTile(g, 0)))
    ensures Height(r) == Height(g) && Width(r) == Width(g) + Flag(ColumnHasTile(g, 0))
  {
    if ColumnHasTile(g, 0) then
      var r := seq(|g|, i requires 0 <= i < |g| => [None] + g[i]);
      assert |r[0]| == Width(g) + 1;
      r
    else g
  }

  /** board.py:29-34: an empty column on the right when the last column holds a tile. */
  function PadRight(g: Grid): (r: Grid)
    requires IsGrid(g)
    ensures Embeds(g, r, 0, 0)
    ensures Height(r) == Height(g) && Width(r) == Width(g) + Flag(ColumnHasTile(g, Width(g) - 1))
  {
    if ColumnHasTile(g, Width(g) - 1) then
      var r := seq(|g|, i requires 0 <= i < |g| => g[i] + [None]);
      assert |r[0]| == Width(g) + 1;
      r
    else g
  }

  /** Which borders of `g` hold a tile: top, bottom, left, right. */
  function Top(g: Grid): nat
    requires IsGrid(g)
  {
    Flag(RowHasTile(g[0]))
  }

  function Bottom(g: Grid): nat
    requires IsGrid(g)
  {
    Flag(RowHasTile(g[Height(g) - 1]))
  }

  function LeftEdge(g: Grid): nat
    requires IsGrid(g)
  {
    Flag(ColumnHasTile(g, 0))
  }

  function RightEdge(g: Grid): nat
    requires IsGrid(g)
  {
    Flag(ColumnHasTile(g, Width(g) - 1))
  }

  /**
   board.py `adjust_padding`: the four checks in the source's order, each on
   the grid the previous one produced. The result holds the original grid
   moved by one row when a row was added on top and by one column when a
   column was added on the left, grows each dimension by exactly the number
   of borders that held a tile, and has an empty outer ring.
   */
  function AdjustPadding(g: Grid): (r: Grid)
    requires IsGrid(g)
    ensures Embeds(g, r, Top(g), LeftEdge(g))
    ensures Height(r) == Height(g) + Top(g) + Bottom(g)
    ensures Width(r) == Width(g) + LeftEdge(g) + RightEdge(g)
    ensures BorderEmpty(r)
  {
    var rows := PadBottom(PadTop(g));
    var r := PadRight(PadLeft(rows));
    PaddedShape(g, rows, r);
    BorderOfPadded(g, r);
    r
  }

  /** The padded grid holds `g` shifted by the top and left flags and is as large as the flags say. */
  lemma PaddedShape(g: Grid, rows: Grid, r: Grid)
    requires IsGrid(g) && rows == PadBottom(PadTop(g)) && r == PadRight(PadLeft(rows))
    ensures Embeds(g, r, Top(g), LeftEdge(g))
    ensures Height(r) == Height(g) + Top(g) + Bottom(g)
    ensures Width(r) == Width(g) + LeftEdge(g) + RightEdge(g)
  {
    PadRowsFacts(g);
    PadColumnsFacts(g, rows);
    ComposeShape(g, rows, r);
  }

  lemma ComposeShape(g: Grid, rows: Grid, r: Grid)
    requires IsGrid(g) && Embeds(g, rows, Top(g), 0) && Embeds(rows, r, 0, LeftEdge(g))
    requires Height(rows) == Height(g) + Top(g) + Bottom(g) && Height(r) == Height(rows)
    requires Width(r) == Width(g) + LeftEdge(g) + RightEdge(g)
    ensures Embeds(g, r, Top(g), LeftEdge(g))
    ensures Height(r) == Height(g) + Top(g) + Bottom(g)
    ensures Width(r) == Width(g) + LeftEdge(g) + RightEdge(g)
  {
    EmbedsTrans(g, rows, r, Top(g), 0, 0, LeftEdge(g));
  }

  /** The two row checks together: the grid moves down by `Top(g)` and gains `Top(g) + Bottom(g)` rows. */
  lemma PadRowsFacts(g: Grid)
    requires IsGrid(g)
    ensures Embeds(g, PadBottom(PadTop(g)), Top(g), 0)
    ensures Height(PadBottom(PadTop(g))) == Height(g) + Top(g) + Bottom(g)
    ensures Width(PadBottom(PadTop(g))) == Width(g)
  {
    var g1 := PadTop(g);
    EmbedsTrans(g, g1, PadBottom(g1), Top(g), 0, 0, 0);
  }

  /** The two column checks on a grid that embeds `g` without a column shift. */
  lemma PadColumnsFacts(g: Grid, rows: Grid)
    requires IsGrid(g) && Embeds(g, rows, Top(g), 0) && Width(rows) == Width(g)
    ensures Embeds(rows, PadRight(PadLeft(rows)), 0, LeftEdge(g))
    ensures Height(PadRight(PadLeft(rows))) == Height(rows)
    ensures Width(PadRight(PadLeft(rows))) == Width(g) + LeftEdge(g) + RightEdge(g)
  {
    var g3 := PadLeft(rows);
    PadLeftFacts(g, rows);
    PadRightFacts(g, g3);
    PadRightWidth(g3);
    EmbedsTrans(rows, g3, PadRight(g3), 0, LeftEdge(g), 0, 0);
  }

  lemma PadRightWidth(g3: Grid)
    requires IsGrid(g3)
    ensures Width(PadRight(g3)) == Width(g3) + Flag(ColumnHasTile(g3, Width(g3) - 1))
  {
  }

  /** The left check sees the first column of `g`, and the grid moves right by `LeftEdge(g)`. */
  lemma PadLeftFacts(g: Grid, rows: Grid)
    requires IsGrid(g) && Embeds(g, rows, Top(g), 0) && Width(rows) == Width(g)
    ensures Embeds(rows, PadLeft(rows), 0, LeftEdge(g))
    ensures Embeds(g, PadLeft(rows), Top(g), LeftEdge(g))
    ensures Height(PadLeft(rows)) == Height(rows) && Width(PadLeft(rows)) == Width(g) + LeftEdge(g)
  {
    ColumnTileShift(g, rows, Top(g), 0, 0);
    EmbedsTrans(g, rows, PadLeft(rows), Top(g), 0, 0, LeftEdge(g));
  }

  /** The right check on the left-padded grid sees the last column of `g`. */
  lemma PadRightFacts(g: Grid, g3: Grid)
    requires IsGrid(g) && Embeds(g, g3, Top(g), LeftEdge(g)) && Width(g3) == Width(g) + LeftEdge(g)
    ensures Flag(ColumnHasTile(g3, Width(g3) - 1)) == RightEdge(g)
  {
    ColumnTileShift(g, g3, Top(g), LeftEdge(g), Width(g) - 1);
  }

  lemma BorderOfPadded(g: Grid, r: Grid)
    requires IsGrid(g)
    requires Embeds(g, r, Top(g), LeftEdge(g))
    requires Height(r) == Height(g) + Top(g) + Bottom(g)
    requires Width(r) == Width(g) + LeftEdge(g) + RightEdge(g)
    ensures BorderEmpty(r)
  {
    forall i, c | 0 <= i < Height(r) && 0 <= c < Width(r) && (i == 0 || i == Height(r) - 1 || c == 0 || c == Width(r) - 1)
      ensures r[i][c].None?
    {
      var dr, dc := Top(g), LeftEdge(g);
      if dr <= i < dr + Height(g) && dc <= c < dc + Width(g) {
        var gi, gc := i - dr, c - dc;
        assert r[i][c] == g[gi][gc];
        if i == 0 {
          assert !RowHasTile(g[0]);
        } else if i == Height(r) - 1 {
          assert gi == Height(g) - 1;
          assert !RowHasTile(g[Height(g) - 1]);
        } else if c == 0 {
          assert !ColumnHasTile(g, 0);
        } else {
          assert gc == Width(g) - 1;
          assert !ColumnHasTile(g, Width(g) - 1);
        }
      }
    }
  }

  /** A grid whose outer ring is empty is left as it is. */
  lemma AdjustPaddingNoOp(g: Grid)
    requires IsGrid(g) && BorderEmpty(g)
    ensures AdjustPadding(g) == g
  {
    assert !RowHasTile(g[0]);
    assert !RowHasTile(g[Height(g) - 1]);
    assert !ColumnHasTile(g, 0);
    assert !ColumnHasTile(g, Width(g) - 1);
    var r := AdjustPadding(g);
    assert |r| == |g|;
    forall i | 0 <= i < |g| ensures r[i] == g[i] {
      assert |r[i]| == |g[i]|;
    }
  }

  /** A second call changes nothing. */
  lemma AdjustPaddingIdempotent(g: Grid)
    requires IsGrid(g)
    ensures AdjustPadding(AdjustPadding(g)) == AdjustPadding(g)
  {
    AdjustPaddingNoOp(AdjustPadding(g));
  }

  /** A grid without tiles is left as it is. */
  lemma AdjustPaddingNoTiles(g: Grid)
    requires IsGrid(g)
    requires forall i, c | 0 <= i < Height(g) && 0 <= c < Width(g) :: g[i][c].None?
    ensures AdjustPadding(g) == g
  {
    AdjustPaddingNoOp(g);
  }

  /** A single tile on a 1x1 grid ends up in the middle of a 3x3 grid. */
  lemma AdjustPaddingSingleTile(t: Tile)
    ensures AdjustPadding([[Some(t)]]) == [[None, None, None], [None, Some(t), None], [None, None, None]]
  {
    SingleTileRows(t);
    SingleTileColumns(t);
  }

  lemma SingleTileRows(t: Tile)
    ensures PadBottom(PadTop([[Some(t)]])) == [[None], [Some(t)], [None]]
  {
    var g: Grid := [[Some(t)]];
    assert g[0][0].Some?;
    assert RowHasTile(g[0]);
    assert EmptyRow(1) == [None];
  }

  lemma SingleTileColumns(t: Tile)
    ensures PadRight(PadLeft([[None], [Some(t)], [None]])) == [[None, None, None], [None, Some(t), None], [None, None, None]]
  {
    var rows: Grid := [[None], [Some(t)], [None]];
    assert rows[1][0].Some? && ColumnHasTile(rows, 0);
    var wide: Grid := [[None, None], [None, Some(t)], [None, None]];
    var l := PadLeft(rows);
    assert l[0] == wide[0] && l[1] == wide[1] && l[2] == wide[2];
    assert wide[1][1].Some? && ColumnHasTile(wide, 1);
    var e: Grid := [[None, None, None], [None, Some(t), None], [None, None, None]];
    var r := PadRight(wide);
    assert r[0] == e[0] && r[1] == e[1] && r[2] == e[2];
  }
}
