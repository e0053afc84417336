/**
 Validity of a line of tiles (bot.py `is_valid_line`, duplicated in board.py).
 A line is a candidate tile together with the contiguous tiles it would join
 along one axis.
 */
module Lines {
  import opened Tiles

  /** The attribute a line agrees on, with the value it agrees on. */
  datatype Aspect = ShapeAspect(shape: Shape) | ColorAspect(color: Color)

  predicate Matches(t: Tile, a: Aspect)
  {
    match a
    case ShapeAspect(s) => t.shape == s
    case ColorAspect(c) => t.color == c
  }

  /**
   The governing aspect chosen from the first two tiles: a shared shape is
   recorded first and a shared colour then overwrites it.
   */
  function CommonAspect(first: Tile, second: Tile): (a: Option<Aspect>)
    ensures a.None? <==> first.shape != second.shape && first.color != second.color
    ensures a.Some? ==> Matches(first, a.value) && Matches(second, a.value)
    ensures first.color == second.color ==> a == Some(ColorAspect(first.color))
  {
    var byShape := if first.shape == second.shape then Some(ShapeAspect(first.shape)) else None;
    if first.color == second.color then Some(ColorAspect(first.color)) else byShape
  }

  /**
   The scan over the line from index `i` on, with `seen` holding the tiles
   already visited: it fails at the first tile that repeats an earlier one or
   does not carry the governing value.
   */
  function ScanLine(line: seq<Tile>, a: Aspect, i: nat, seen: set<Tile>): (ok: bool)
    requires i <= |line|
    requires forall t :: t in seen <==> t in line[..i]
    ensures ok <==>
      (forall j | i <= j < |line| :: Matches(line[j], a))
      && (forall j, j' | 0 <= j < j' < |line| && i <= j' :: line[j] != line[j'])
    decreases |line| - i
  {
    if i == |line| then true
    else
      var t := line[i];
      var duplicate := t in seen;
      var invalid := !Matches(t, a);
      if duplicate || invalid then
        assert duplicate ==> exists j :: 0 <= j < i && line[j] == line[i];
        false
      else
        assert line[..i + 1] == line[..i] + [t];
        ScanLine(line, a, i + 1, seen + {t})
  }

  /**
   bot.py `is_valid_line`: a line of at most one tile is valid; otherwise the
   first two tiles choose the governing aspect and the scan checks every tile
   against it. The scan decides exactly the rule of the game.
   */
  function IsValidLine(line: seq<Tile>): (ok: bool)
    ensures ok <==> LegalLine(line)
  {
    if |line| <= 1 then true
    else
      match CommonAspect(line[0], line[1])
      case None =>
        NoAspectIllegal(line);
        false
      case Some(a) =>
        ScanDecidesRule(line, a);
        ScanLine(line, a, 0, {})
  }

  /** Every tile of the line has the shape of its first tile. */
  predicate SameShape(line: seq<Tile>)
  {
    forall t | t in line :: t.shape == line[0].shape
  }

  /** Every tile of the line has the colour of its first tile. */
  predicate SameColor(line: seq<Tile>)
  {
    forall t | t in line :: t.color == line[0].color
  }

  /**
   The rule of the game, independent of how the scan is written: a line of at
   least two tiles is legal when all its tiles share a shape or all share a
   colour, and no tile occurs twice.
   */
  predicate LegalLine(line: seq<Tile>)
  {
    |line| <= 1 || ((SameShape(line) || SameColor(line)) && Distinct(line))
  }

  /** First two tiles that share neither attribute make the line illegal. */
  lemma NoAspectIllegal(line: seq<Tile>)
    requires |line| >= 2 && CommonAspect(line[0], line[1]).None?
    ensures !LegalLine(line)
  {
    assert line[1] in line;
  }

  /** Once the first two tiles have chosen aspect `a`, the scan decides exactly the rule of the game. */
  lemma ScanDecidesRule(line: seq<Tile>, a: Aspect)
    requires |line| >= 2 && CommonAspect(line[0], line[1]) == Some(a)
    ensures ScanLine(line, a, 0, {}) <==> LegalLine(line)
  {
    var x, y := line[0], line[1];
    if ScanLine(line, a, 0, {}) {
      match a
      case ShapeAspect(s) =>
        assert SameShape(line) by {
          forall t | t in line ensures t.shape == x.shape {
            var j :| 0 <= j < |line| && line[j] == t;
            assert Matches(line[j], a);
          }
        }
      case ColorAspect(c) =>
        assert SameColor(line) by {
          forall t | t in line ensures t.color == x.color {
            var j :| 0 <= j < |line| && line[j] == t;
            assert Matches(line[j], a);
          }
        }
    }
    if LegalLine(line) {
      assert x != y;
      if x.color == y.color {
        assert !SameShape(line) by { assert x.shape != y.shape; assert y in line; }
      } else {
        assert !SameColor(line) by { assert y in line; }
      }
      assert forall j | 0 <= j < |line| :: Matches(line[j], a) by {
        forall j | 0 <= j < |line| ensures Matches(line[j], a) {
          assert line[j] in line;
        }
      }
    }
  }

  /** Reordering the tiles of a line never changes its verdict. */
  lemma IsValidLineOrderFree(a: seq<Tile>, b: seq<Tile>)
    requires multiset(a) == multiset(b)
    ensures IsValidLine(a) == IsValidLine(b)
  {
    assert |a| == |multiset(a)| == |multiset(b)| == |b|;
    DistinctIffSingletons(a);
    DistinctIffSingletons(b);
    if |a| >= 2 {
      assert b[0] in multiset(a) && a[0] in multiset(b);
      assert forall t :: t in a <==> t in b by {
        forall t ensures t in a <==> t in b {
          assert t in a <==> t in multiset(a);
          assert t in b <==> t in multiset(b);
        }
      }
    }
  }

  /** A line with a repeated tile is never valid, whatever aspect it shares. */
  lemma DuplicateMakesInvalid(line: seq<Tile>, i: nat, j: nat)
    requires i < j < |line| && line[i] == line[j]
    ensures !IsValidLine(line)
  {
  }

  /** A line whose first two tiles share neither attribute is never valid. */
  lemma IncompatiblePairMakesInvalid(line: seq<Tile>)
    requires |line| >= 2
    requires line[0].shape != line[1].shape && line[0].color != line[1].color
    ensures !IsValidLine(line)
  {
  }

  /**
   Letting colour overwrite shape when the first two tiles share both never
   changes the verdict: preferring shape would give the same answer, because
   two such tiles are duplicates.
   */
  lemma {:induction false} TieBreakIrrelevant(line: seq<Tile>)
    requires |line| >= 2
    requires line[0].shape == line[1].shape
    ensures IsValidLine(line) == ScanLine(line, ShapeAspect(line[0].shape), 0, {})
  {
    if line[0].color == line[1].color {
      assert line[0] == line[1];
      assert !ScanLine(line, ShapeAspect(line[0].shape), 0, {});
    }
  }
}
