/**
 Value types shared by every part of the bot: the tile (a shape and a colour
 from finite sets), the board position (a row/column pair) and the usual
 Option and Result wrappers.
 */
module Tiles {

  datatype Option<+T> = None | Some(value: T)

  /** The error the move accumulator raises when asked to undo nothing. */
  datatype Error = EmptyState

  datatype Result<+R> = Success(value: R) | Failure(error: Error)

  datatype Shape = Circle | Square | Diamond | Clover | Star | Cross

  datatype Color = Red | Orange | Yellow | Green | Blue | Purple

  /** Two tiles are duplicates exactly when they are equal as values. */
  datatype Tile = Tile(shape: Shape, color: Color)

  datatype Position = Position(row: int, col: int)

  /** Orthogonal neighbours: one step along exactly one axis. */
  predicate Adjacent(p: Position, q: Position)
  {
    (p.row == q.row && (q.col == p.col - 1 || q.col == p.col + 1))
    || (p.col == q.col && (q.row == p.row - 1 || q.row == p.row + 1))
  }

  /** No element of the sequence occurs twice. */
  predicate Distinct<T(==)>(s: seq<T>)
  {
    forall i, j | 0 <= i < j < |s| :: s[i] != s[j]
  }

  /** Distinctness is a property of the multiset of elements, not of their order. */
  lemma {:induction false} DistinctIffSingletons<T>(s: seq<T>)
    ensures Distinct(s) <==> forall t | t in multiset(s) :: multiset(s)[t] == 1
  {
    if |s| == 0 {
    } else {
      var x, rest := s[0], s[1..];
      assert s == [x] + rest;
      DistinctIffSingletons(rest);
      if Distinct(s) {
        assert x !in rest;
        assert Distinct(rest) by {
          forall i, j | 0 <= i < j < |rest| ensures rest[i] != rest[j] {
            assert s[i + 1] != s[j + 1];
          }
        }
      } else {
        var i, j :| 0 <= i < j < |s| && s[i] == s[j];
        assert multiset(s) == multiset{x} + multiset(rest);
        if i == 0 {
          assert s[j] in rest;
          assert multiset(s)[x] >= 2;
        } else {
          assert !Distinct(rest) by {
            assert rest[i - 1] == rest[j - 1];
          }
          var t :| t in multiset(rest) && multiset(rest)[t] != 1;
          assert multiset(s)[t] >= 2;
        }
      }
    }
  }
}
