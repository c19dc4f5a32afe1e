/** The physics engine proper: handlers that update a ball object field
    by field, each proved to perform the response PhysicsSpec gives for
    the ball it started from. */
module Physics {
  import opened Rust
  import opened Tiles
  import Balls
  import opened PhysicsSpec

  /** The simulated ball: grid cell, pixel position and velocity,
      radius, colour and the two liveness flags. */
  class PhysicsBall {
    var row: usize
    var col: usize
    var x: real
    var y: real
    var vx: real
    var vy: real
    var radius: real
    var color: Balls.BallColor
    var alive: bool
    var captured: bool

    function State(): BallState
      reads this
    {
      BallState(row, col, x, y, vx, vy, radius, color, alive, captured)
    }
  }

  /** One integration step with the friction factor for this time step
      given by the caller; a dead or captured ball is not touched. */
  method UpdateBallPosition(ball: PhysicsBall, deltaTime: real, frictionFactor: real)
    modifies ball
    ensures ball.State() == Integrate(old(ball.State()), deltaTime, frictionFactor)
  {
    if !ball.alive || ball.captured {
      return;
    }
    ghost var b := ball.State();
    ball.vy := ball.vy + GRAVITY * deltaTime;
    ball.vx := ball.vx * frictionFactor;
    ball.vy := ball.vy * frictionFactor;
    ball.x := ball.x + ball.vx * deltaTime;
    ball.y := ball.y + ball.vy * deltaTime;
    ghost var moved := ball.State();
    assert moved == Advance(b, deltaTime, frictionFactor);
    ball.row := CellOf(ball.y);
    ball.col := CellOf(ball.x);
    assert ball.State() == Relocate(moved);
  }

  /** Clamps the ball into the board, reflecting the velocity on every
      axis where it stuck out. */
  method CheckBoardBounds(ball: PhysicsBall, board: TileBoard) returns (collided: bool)
    modifies ball
    ensures Response(collided, ball.State()) == BoundsResponse(old(ball.State()), BoardWidth(board), BoardHeight(board))
  {
    var boardWidth := |board.tiles[0]| as real * T;
    var boardHeight := |board.tiles| as real * T;
    collided := false;
    if ball.x - ball.radius < 0.0 {
      ball.x := ball.radius;
      ball.vx := -ball.vx * BOUNCE_FACTOR;
      collided := true;
    } else if ball.x + ball.radius > boardWidth {
      ball.x := boardWidth - ball.radius;
      ball.vx := -ball.vx * BOUNCE_FACTOR;
      collided := true;
    }
    if ball.y - ball.radius < 0.0 {
      ball.y := ball.radius;
      ball.vy := -ball.vy * BOUNCE_FACTOR;
      collided := true;
    } else if ball.y + ball.radius > boardHeight {
      ball.y := boardHeight - ball.radius;
      ball.vy := -ball.vy * BOUNCE_FACTOR;
      collided := true;
    }
  }

  /** Visits every cell under the ball's bounding box, row by row and
      left to right within a row, letting each tile respond. */
  method CheckTileCollision(ball: PhysicsBall, board: TileBoard, bounce: Bounce) returns (collided: bool)
    modifies ball
    ensures Response(collided, ball.State()) == TileCollision(old(ball.State()), board, bounce)
  {
    var minRow := F64ToUsize(MaxR((ball.y - ball.radius) / T, 0.0));
    var maxRow := F64ToUsize(MinR((ball.y + ball.radius) / T, (|board.tiles| - 1) as real));
    var minCol := F64ToUsize(MaxR((ball.x - ball.radius) / T, 0.0));
    var maxCol := F64ToUsize(MinR((ball.x + ball.radius) / T, (|board.tiles[0]| - 1) as real));
    assert CellRange(minRow, maxRow, minCol, maxCol) == CandidateRange(ball.State(), board);
    collided := ScanRows(ball, board, minRow, maxRow, minCol, maxCol, bounce);
  }

  /** The outer loop of the tile check: rows minRow to maxRow inclusive. */
  method ScanRows(ball: PhysicsBall, board: TileBoard, minRow: usize, maxRow: usize, minCol: usize, maxCol: usize, bounce: Bounce)
    returns (collided: bool)
    modifies ball
    ensures Response(collided, ball.State()) == Scan(old(ball.State()), board, Cells(minRow, maxRow + 1, minCol, maxCol + 1), bounce)
  {
    ghost var start := ball.State();
    collided := false;
    var row: int := minRow;
    while row <= maxRow
      invariant minRow <= row && (row <= maxRow + 1 || row == minRow)
      invariant Response(collided, ball.State()) == Scan(start, board, Cells(minRow, row, minCol, maxCol + 1), bounce)
    {
      ghost var above := Cells(minRow, row, minCol, maxCol + 1);
      ScanAppend(start, board, above, RowCells(row, minCol, maxCol + 1), bounce);
      var hit := ScanRow(ball, board, row, minCol, maxCol, bounce);
      if hit {
        collided := true;
      }
      ghost var prev := row;
      row := row + 1;
      CellsSnoc(minRow, prev, row, minCol, maxCol + 1);
    }
  }

  /** The inner loop of the tile check: the cells of one row from column
      minCol to maxCol inclusive, left to right. */
  method ScanRow(ball: PhysicsBall, board: TileBoard, row: int, minCol: usize, maxCol: usize, bounce: Bounce)
    returns (collided: bool)
    modifies ball
    ensures Response(collided, ball.State()) == Scan(old(ball.State()), board, RowCells(row, minCol, maxCol + 1), bounce)
  {
    ghost var start := ball.State();
    ghost var done: seq<(int, int)> := [];
    collided := false;
    var col: int := minCol;
    while col <= maxCol
      invariant minCol <= col && (col <= maxCol + 1 || col == minCol)
      invariant done == RowCells(row, minCol, col)
      invariant Response(collided, ball.State()) == Scan(start, board, done, bounce)
    {
      ghost var before := ball.State();
      ghost var seen := collided;
      match GetTile(board, row, col) {
        case Some(tile) =>
          var hit := CheckSingleTileCollision(ball, tile, bounce);
          if hit {
            collided := true;
          }
        case None =>
      }
      ghost var v := Visit(before, board, (row, col), bounce);
      assert Response(collided, ball.State()) == Response(seen || v.collided, v.ball);
      ScanSnoc(start, board, done, (row, col), bounce);
      done := done + [(row, col)];
      ghost var prev := col;
      col := col + 1;
      RowCellsSnoc(row, minCol, prev, col);
    }
  }

  /** Dispatches on the tile kind to its handler. */
  method CheckSingleTileCollision(ball: PhysicsBall, tile: BoardTile, bounce: Bounce) returns (hit: bool)
    modifies ball
    ensures Response(hit, ball.State()) == TileResponse(old(ball.State()), tile, bounce)
  {
    match tile.tileType
    case Floor => hit := false;
    case Wall => hit := DeflectFromWall(ball, tile);
    case BreakWall => hit := DeflectFromWall(ball, tile);
    case Bumper => hit := DeflectFromBumper(ball, tile, bounce);
    case Chevron(dir) => hit := DeflectFromChevron(ball, tile, dir);
    case Drain(color) => hit := CheckDrainCapture(ball, tile, color);
    case RLColored(color) => hit := DeflectFromRLColored(ball, tile, color);
    case RLGray => hit := DeflectFromRLGray(ball, tile);
    case OneWayForce(dir) => hit := DeflectFromOneWayForce(ball, tile, dir);
  }

  /** Reflects the ball off a solid square it overlaps. */
  method DeflectFromWall(ball: PhysicsBall, tile: BoardTile) returns (hit: bool)
    modifies ball
    ensures Response(hit, ball.State()) == WallResponse(old(ball.State()), tile)
  {
    var tileX := tile.col as real * T;
    var tileY := tile.row as real * T;
    var closestX := MinR(MaxR(ball.x, tileX), tileX + T);
    var closestY := MinR(MaxR(ball.y, tileY), tileY + T);
    var dx := ball.x - closestX;
    var dy := ball.y - closestY;
    var distSq := dx * dx + dy * dy;
    ghost var b := ball.State();
    assert distSq < ball.radius * ball.radius <==> Overlaps(b, tile);
    if distSq < ball.radius * ball.radius {
      PushOutOfWall(ball, tile);
      return true;
    }
    return false;
  }

  /** The reflecting half of the wall handler, for a ball known to
      overlap the tile: reflects the axis of larger offset from the tile
      centre and moves the ball flush against the side it came from. */
  method PushOutOfWall(ball: PhysicsBall, tile: BoardTile)
    modifies ball
    ensures ball.State() ==
      if SideHit(old(ball.State()), tile) then SideBounce(old(ball.State()), tile)
      else TopBounce(old(ball.State()), tile)
  {
    var tileX := tile.col as real * T;
    var tileY := tile.row as real * T;
    var tileCenterX := tileX + T / 2.0;
    var tileCenterY := tileY + T / 2.0;
    var fromLeft := ball.x < tileCenterX;
    var fromTop := ball.y < tileCenterY;
    var dxAbs := AbsR(ball.x - tileCenterX);
    var dyAbs := AbsR(ball.y - tileCenterY);
    assert dxAbs > dyAbs <==> SideHit(ball.State(), tile);
    if dxAbs > dyAbs {
      ball.vx := -ball.vx * BOUNCE_FACTOR;
      if fromLeft {
        ball.x := tileX - ball.radius;
      } else {
        ball.x := tileX + T + ball.radius;
      }
    } else {
      ball.vy := -ball.vy * BOUNCE_FACTOR;
      if fromTop {
        ball.y := tileY - ball.radius;
      } else {
        ball.y := tileY + T + ball.radius;
      }
    }
  }

  /** Redirects a ball in contact with a bumper as the bounce says. */
  method DeflectFromBumper(ball: PhysicsBall, tile: BoardTile, bounce: Bounce) returns (hit: bool)
    modifies ball
    ensures Response(hit, ball.State()) == BumperResponse(old(ball.State()), tile, bounce)
  {
    var tileX := tile.col as real * T + T / 2.0;
    var tileY := tile.row as real * T + T / 2.0;
    var dx := ball.x - tileX;
    var dy := ball.y - tileY;
    var reach := ball.radius + T / 2.0;
    if reach > 0.0 && dx * dx + dy * dy < reach * reach {
      var m := bounce(ball.State(), tile);
      ball.vx := m.vx;
      ball.vy := m.vy;
      ball.x := m.x;
      ball.y := m.y;
      return true;
    }
    return false;
  }

  /** A wall reflection followed by forcing the velocity sign along a
      cardinal chevron's direction. */
  method DeflectFromChevron(ball: PhysicsBall, tile: BoardTile, direction: Direction) returns (hit: bool)
    modifies ball
    ensures Response(hit, ball.State()) == ChevronResponse(old(ball.State()), tile, direction)
  {
    var wall := DeflectFromWall(ball, tile);
    if wall {
      match direction {
        case Up => ball.vy := -AbsR(ball.vy);
        case Down => ball.vy := AbsR(ball.vy);
        case Left => ball.vx := -AbsR(ball.vx);
        case Right => ball.vx := AbsR(ball.vx);
        case _ =>
      }
      return true;
    }
    return false;
  }

  /** Consumes a ball of the drain's colour near the drain's centre. */
  method CheckDrainCapture(ball: PhysicsBall, tile: BoardTile, drainColor: BoardColor) returns (hit: bool)
    modifies ball
    ensures Response(hit, ball.State()) == DrainResponse(old(ball.State()), tile, drainColor)
  {
    var tileX := tile.col as real * T + T / 2.0;
    var tileY := tile.row as real * T + T / 2.0;
    var dx := ball.x - tileX;
    var dy := ball.y - tileY;
    if dx * dx + dy * dy < (T / 4.0) * (T / 4.0) {
      var ballMatches := ColorMatches(ball.color, drainColor);
      if ballMatches {
        ball.captured := true;
        ball.alive := false;
        return true;
      }
    }
    return false;
  }

  /** A coloured reflective wall is a wall, whatever its colour. */
  method DeflectFromRLColored(ball: PhysicsBall, tile: BoardTile, color: BoardColor) returns (hit: bool)
    modifies ball
    ensures Response(hit, ball.State()) == WallResponse(old(ball.State()), tile)
  {
    hit := DeflectFromWall(ball, tile);
  }

  /** A gray reflective wall is a wall; it never opens. */
  method DeflectFromRLGray(ball: PhysicsBall, tile: BoardTile) returns (hit: bool)
    modifies ball
    ensures Response(hit, ball.State()) == WallResponse(old(ball.State()), tile)
  {
    hit := DeflectFromWall(ball, tile);
  }

  /** A one-way field is a wall to blocked motion and open otherwise. */
  method DeflectFromOneWayForce(ball: PhysicsBall, tile: BoardTile, direction: Direction) returns (hit: bool)
    modifies ball
    ensures Response(hit, ball.State()) == OneWayResponse(old(ball.State()), tile, direction)
  {
    var shouldBlock :=
      match direction
      case Up => ball.vy > 0.0
      case Down => ball.vy < 0.0
      case Left => ball.vx > 0.0
      case Right => ball.vx < 0.0
      case _ => false;
    if shouldBlock {
      hit := DeflectFromWall(ball, tile);
    } else {
      hit := false;
    }
  }
}
