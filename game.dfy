/** The game state and the mouse-click handler: a click at pixel (x, y)
    places a ball, coloured by its cell, in the cell under the pointer. */
module Games {
  import opened Rust
  import opened Balls
  import opened Boards

  /** The quotient of p by a positive tile size, rounded toward zero,
      locates p inside its tile for p >= 0, is 0 for p just below zero,
      and is negative from -tileSize downwards. */
  lemma TruncDivLocates(p: int, ts: int, q: int)
    requires ts > 0 && q == TruncDiv(p, ts)
    ensures p >= 0 ==> q * ts <= p < (q + 1) * ts
    ensures -ts < p < 0 ==> q == 0
    ensures p <= -ts ==> q < 0
  {
    var m := p - q * ts;
    assert -ts < m < ts;
    assert (q + 1) * ts == q * ts + ts;
    if q >= 1 {
      MulMonotone(q, ts);
      assert q * ts == ts * q;
    } else if q <= -1 {
      MulMonotone(-q, ts);
      assert (-q) * ts == ts * (-q);
    }
  }

  /** `(p / tileSize) as usize`: the grid index of pixel coordinate p.
      For a positive tile size the index of p >= 0 is the tile containing
      p; because the division rounds toward zero, a coordinate less than
      one tile below zero also yields 0, and one further below wraps to
      an index far beyond the grid. */
  function CellIndex(p: i32, tileSize: i32): (i: usize)
    requires tileSize != 0 && !(p == I32_MIN && tileSize == -1)
    ensures tileSize > 0 && p >= 0 ==> i * tileSize <= p < (i + 1) * tileSize
    ensures tileSize > 0 && -tileSize < p < 0 ==> i == 0
    ensures tileSize > 0 && p <= -tileSize ==> i > USIZE_MAX + I32_MIN
  {
    var q := I32Div(p, tileSize);
    if tileSize > 0 then
      TruncDivLocates(p, tileSize, q);
      I32ToUsize(q)
    else
      I32ToUsize(q)
  }

  /** The colour of a ball placed by a click in (row, col): the cell's
      `(row + col) % 6` picks the colour in declaration order. The sum
      wraps around as `usize` addition does in a release build. */
  function ClickColor(row: usize, col: usize): (c: BallColor)
    ensures BallColorIndex(c) == WrappingAdd(row, col) % 6
  {
    match WrappingAdd(row, col) % 6
    case 0 => Red
    case 1 => Blue
    case 2 => Green
    case 3 => Yellow
    case 4 => Cyan
    case _ => Gray
  }

  /** Moving one cell to the right moves one colour on, cyclically. */
  lemma ClickColorCycles(row: usize, col: usize)
    requires row + col + 1 <= USIZE_MAX
    ensures BallColorIndex(ClickColor(row, col + 1)) == (BallColorIndex(ClickColor(row, col)) + 1) % 6
  {
  }

  /** With a positive tile size, a click selects a cell of the grid
      exactly when each coordinate lies above minus one tile and below
      the grid's extent; within [0, extent) the cell contains the click. */
  lemma ClickInGrid(x: i32, y: i32, tileSize: i32)
    requires tileSize > 0
    ensures InGrid(CellIndex(y, tileSize), CellIndex(x, tileSize)) <==>
      -tileSize < y < BOARD_ROWS * tileSize && -tileSize < x < BOARD_COLS * tileSize
  {
    var row, col := CellIndex(y, tileSize), CellIndex(x, tileSize);
    if y >= BOARD_ROWS * tileSize {
      MulCancel(BOARD_ROWS, row + 1, tileSize);
    } else if 0 <= y {
      MulCancel(row, BOARD_ROWS, tileSize);
    }
    if x >= BOARD_COLS * tileSize {
      MulCancel(BOARD_COLS, col + 1, tileSize);
    } else if 0 <= x {
      MulCancel(col, BOARD_COLS, tileSize);
    }
  }

  lemma MulCancel(a: int, b: int, k: int)
    requires k > 0 && a * k < b * k
    ensures a < b
  {
    assert b * k - a * k == (b - a) * k;
  }

  class Game {
    var board: GameBoard
    var score: u32
    var timeRemaining: u32
    var level: u32

    ghost predicate Valid()
      reads this, board
    {
      board.Valid()
    }

    /** A new game: an empty board, no score, five minutes, level 1. */
    constructor ()
      ensures Valid() && fresh(board) && fresh(board.tiles)
      ensures score == 0 && timeRemaining == 300 && level == 1
      ensures forall r, c :: InGrid(r, c) ==> board.tiles[r, c].None?
    {
      board := new GameBoard();
      score := 0;
      timeRemaining := 300;
      level := 1;
    }

    /** Places a ball in the cell under the click, coloured by that
        cell; a click outside the grid or on an occupied cell changes
        nothing. Score, time and level are untouched. */
    method HandleClick(x: i32, y: i32, tileSize: i32)
      requires Valid()
      requires tileSize != 0 && !(tileSize == -1 && (x == I32_MIN || y == I32_MIN))
      modifies board.tiles
      ensures Valid() && board == old(board)
      ensures score == old(score) && timeRemaining == old(timeRemaining) && level == old(level)
      ensures var row, col := CellIndex(y, tileSize), CellIndex(x, tileSize);
        forall r, c :: InGrid(r, c) ==>
          board.tiles[r, c] == AfterAdd(old(board.tiles[r, c]), r, c, row, col, ClickColor(row, col))
    {
      var row := CellIndex(y, tileSize);
      var col := CellIndex(x, tileSize);
      var color := ClickColor(row, col);
      board.AddBall(row, col, color);
    }

    /** The per-frame update does nothing yet: the whole game state is
        left as it was. */
    method Update(deltaTime: real)
      requires Valid()
      modifies this, board.tiles
      ensures unchanged(this) && unchanged(board.tiles)
    {
    }
  }
}
