/** The occupancy grid of the game: a fixed 9-by-9 array of optional
    balls, filled in place by `AddBall`. */
module Boards {
  import opened Rust
  import opened Balls

  const BOARD_ROWS: int := 9
  const BOARD_COLS: int := 9

  /** Edge length of one cell in pixels. */
  const TILE_SIZE: int := 48

  predicate InGrid(row: int, col: int) {
    0 <= row < BOARD_ROWS && 0 <= col < BOARD_COLS
  }

  /** What `AddBall(row, col, color)` leaves in the cell (r, c) that
      held `cell` before. */
  function AfterAdd(cell: Option<Ball>, r: int, c: int, row: usize, col: usize, color: BallColor): Option<Ball> {
    if r == row && c == col && cell.None? then Some(Ball(row, col, color)) else cell
  }

  class GameBoard {
    var tiles: array2<Option<Ball>>

    ghost predicate Valid()
      reads this
    {
      tiles.Length0 == BOARD_ROWS && tiles.Length1 == BOARD_COLS
    }

    /** Every stored ball records the cell it is stored in. */
    ghost predicate Consistent()
      reads this, tiles
      requires Valid()
    {
      forall r, c :: InGrid(r, c) && tiles[r, c].Some? ==>
        tiles[r, c].value.row == r && tiles[r, c].value.col == c
    }

    /** The cells that hold a ball. */
    ghost function Occupied(): set<(int, int)>
      reads this, tiles
      requires Valid()
    {
      set r, c | 0 <= r < BOARD_ROWS && 0 <= c < BOARD_COLS && tiles[r, c].Some? :: (r, c)
    }

    constructor ()
      ensures Valid() && fresh(tiles)
      ensures forall r, c :: InGrid(r, c) ==> tiles[r, c].None?
      ensures Consistent() && Occupied() == {}
    {
      tiles := new Option<Ball>[BOARD_ROWS, BOARD_COLS]((r, c) => None);
    }

    /** Stores a new ball in an empty in-range cell; a cell outside the
        grid or one already holding a ball is left as it is. */
    method AddBall(row: usize, col: usize, color: BallColor)
      requires Valid()
      modifies tiles
      ensures Valid()
      ensures forall r, c :: InGrid(r, c) ==>
        tiles[r, c] == AfterAdd(old(tiles[r, c]), r, c, row, col, color)
      ensures !InGrid(row, col) ==> forall r, c :: InGrid(r, c) ==> tiles[r, c] == old(tiles[r, c])
      ensures InGrid(row, col) && old(tiles[row, col]).Some? ==> tiles[row, col] == old(tiles[row, col])
      ensures InGrid(row, col) && old(tiles[row, col]).None? ==> tiles[row, col] == Some(Ball(row, col, color))
      ensures Occupied() ==
        if InGrid(row, col) && old(tiles[row, col]).None? then old(Occupied()) + {(row, col)} else old(Occupied())
      ensures |Occupied()| <= |old(Occupied())| + 1
      ensures old(Consistent()) ==> Consistent()
    {
      if row < BOARD_ROWS && col < BOARD_COLS && tiles[row, col].None? {
        tiles[row, col] := Some(Ball(row, col, color));
        assert (row, col) !in old(Occupied());
        assert Occupied() == old(Occupied()) + {(row, col)};
      }
    }
  }
}
