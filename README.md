# Inkball core in Dafny

A model of the game core of a Rust Inkball clone:

- the tile kinds and their static properties (`src/tile.rs`);
- the 9-by-9 ball grid and its `add_ball` (`src/board.rs`);
- the ball physics (`src/physics.rs`): integration under gravity and friction, clamping to the board edges, and the per-tile collision handlers (walls, breakable walls, bumpers, chevrons, drains, coloured and gray reflective walls, one-way force fields) together with the scan over the tiles under the ball;
- the game state and its mouse-click handler (`src/game.rs`).

Modules:

| module | file | contents |
|---|---|---|
| `Rust` | rust.dfy | `Option`, the fixed-width integer types as bounded subsets of `int`, integer division rounding toward zero, the `i32 as usize` and `f64 as usize` casts, wrapping `usize` addition |
| `Tiles` | tile.dfy | `TileType`, `Direction`, `BoardColor`, `BoardTile` and the tile predicates |
| `Balls` | ball.dfy | `BallColor` and the `Ball` record kept in the grid |
| `Boards` | board.dfy | the board constants and the class `GameBoard` over an `array2` |
| `PhysicsSpec` | physics_spec.dfy | each physics handler as a pure function from a ball value (and a tile) to a `Response`: the collision flag and the resulting ball. Also the properties proved about these functions |
| `Physics` | physics.dfy | the class `PhysicsBall` and the handlers as methods that update it in place. Each method is proved to perform exactly its `PhysicsSpec` response |
| `Games` | game.dfy | the class `Game`, the click-to-cell conversion and the click colour |

Each `Physics` method's postcondition gives the new ball state, and the collision flag where there is one, as its `PhysicsSpec` function gives them. The properties the game relies on are lemmas and `ensures` clauses on the `PhysicsSpec` functions. For example:

- a wall bounce always leaves the ball clear of the wall;
- a one-way field blocks exactly the motion against its direction;
- the tile scan never skips a tile the ball overlaps;
- no handler revives a captured ball.

## Model

| member | source | states |
|---|---|---|
| `Tiles.NewTile` | src/tile.rs:63-71 | the new tile has the given cell and kind, is not shadowed and records side 0 |
| `Tiles.ShouldDeflect` | src/tile.rs:74-78 | true exactly for tiles that are not floor, drain or one-way field |
| `Tiles.CanCapture` | src/tile.rs:81-83 | true exactly for drains; a capturing tile never deflects and always has a colour |
| `Tiles.GetColor` | src/tile.rs:86-91 | a colour exactly for drains and coloured reflective walls, and it is the tile's own colour |
| `Boards.GameBoard.constructor` | src/board.rs:11-15 | every cell of the fresh 9x9 grid is empty, so no cell is occupied |
| `Boards.GameBoard.AddBall` | src/board.rs:17-21 | stores `Ball(row, col, color)` exactly when the cell is in the grid and empty; every other cell is unchanged; the occupied set grows by at most that cell; every stored ball keeps recording its own cell |
| `Rust.TruncDiv` | src/game.rs:22-23 | the remainder is smaller than the divisor and has the dividend's sign; agrees with Euclidean division for non-negative operands |
| `Rust.I32Div` | src/game.rs:22-23 | `i32` division is the quotient rounded toward zero and stays in `i32` when the divisor is nonzero and the case MIN / -1 is excluded |
| `Rust.I32ToUsize` | src/game.rs:22-23 | a non-negative value is kept; a negative one wraps to value + 2^64 |
| `Rust.F64ToUsize` | src/physics.rs:34-35 | truncation toward zero, saturating at 0 and at `usize::MAX` |
| `Rust.WrappingAdd` | src/game.rs:26 | the sum modulo 2^64, which is the plain sum when it fits |
| `Games.CellIndex` | src/game.rs:22-23 | with a positive tile size, a coordinate p >= 0 lies inside the returned cell; a coordinate less than one tile below zero gives cell 0; anything lower wraps to an index far beyond the grid |
| `Games.ClickInGrid` | src/game.rs:22-23 | the click selects a grid cell exactly when each coordinate is above minus one tile and below 9 tiles |
| `Games.ClickColor` | src/game.rs:26-33 | the colour's position in declaration order is (row + col) mod 6, with wrap-around addition |
| `Games.ClickColorCycles` | src/game.rs:26-33 | the next cell to the right gets the next colour, cyclically |
| `Games.Game.constructor` | src/game.rs:12-19 | an empty board, score 0, 300 seconds, level 1 |
| `Games.Game.HandleClick` | src/game.rs:21-36 | every cell becomes what `AddBall` at (`CellIndex(y)`, `CellIndex(x)`) with the click colour leaves; score, time and level are unchanged |
| `Games.Game.Update` | src/game.rs:38-43 | changes nothing |
| `PhysicsSpec.CellOf` | src/physics.rs:34-35 | the cell of a non-negative coordinate contains it; anything below one tile is cell 0 |
| `PhysicsSpec.Relocate` | src/physics.rs:33-35 | only row and col change; the new cell contains the ball's centre, and a coordinate below one tile (negative ones included) gives index 0 |
| `PhysicsSpec.Integrate` | src/physics.rs:16-36 | a dead or captured ball is untouched; otherwise vy gains gravity times dt, both velocity components are scaled by the friction factor, the position moves by velocity times dt, and the cell is recomputed to contain the new position, or is 0 on an axis where the ball ends below one tile; radius, colour and flags are kept |
| `Physics.UpdateBallPosition` | src/physics.rs:16-36 | the ball object ends in the state `Integrate` gives |
| `PhysicsSpec.BoundsResponse` | src/physics.rs:39-68 | reports a collision exactly when the ball sticks out of the board; on each axis where it sticks out, the velocity component is reversed and damped by 0.8; the other axis is unchanged; the ball is put flush at `radius` after leaving on the low side and at `width - radius` or `height - radius` after leaving on the high side; a ball that fits ends inside the board |
| `PhysicsSpec.BoundsIdempotent` | src/physics.rs:39-68 | clamping a ball that fits twice is clamping it once: the second pass reports nothing |
| `Physics.CheckBoardBounds` | src/physics.rs:39-68 | performs `BoundsResponse` with the board's pixel width and height |
| `PhysicsSpec.SideBounce` | src/physics.rs:144-151 | only x and vx change; vx is reversed and damped; the ball ends flush with the side it came from |
| `PhysicsSpec.TopBounce` | src/physics.rs:152-160 | only y and vy change; vy is reversed and damped; the ball ends flush with the top or bottom it came from |
| `PhysicsSpec.SideBounceClears` | src/physics.rs:144-151 | after a side bounce the ball no longer overlaps the tile |
| `PhysicsSpec.TopBounceClears` | src/physics.rs:152-160 | after a top or bottom bounce the ball no longer overlaps the tile |
| `PhysicsSpec.WallResponse` | src/physics.rs:122-166 | reports a collision exactly when the closest point of the square is within the radius; no collision leaves the ball unchanged; the axis with the larger centre offset is reflected |
| `PhysicsSpec.WallClears` | src/physics.rs:122-166 | a wall reflection always moves a ball of non-negative radius clear of the wall it hit |
| `Physics.DeflectFromWall` | src/physics.rs:122-166 | performs `WallResponse` |
| `Physics.PushOutOfWall` | src/physics.rs:137-162 | performs `SideBounce` when the horizontal offset dominates, `TopBounce` otherwise |
| `PhysicsSpec.BumperResponse` | src/physics.rs:169-193 | collides exactly when the centres are closer than radius plus half a tile; then only position and velocity change, as the bounce gives; otherwise nothing changes |
| `Physics.DeflectFromBumper` | src/physics.rs:169-193 | performs `BumperResponse` |
| `PhysicsSpec.ChevronResponse` | src/physics.rs:196-209 | collides as a wall does and leaves the same ball apart from the velocity signs; after a hit, an Up, Down, Left or Right chevron makes the velocity point its way along its axis and leaves the other component as the wall set it; a diagonal chevron is a plain wall |
| `Physics.DeflectFromChevron` | src/physics.rs:196-209 | performs `ChevronResponse` |
| `PhysicsSpec.ColorMatches` | src/physics.rs:222-230 | a ball colour matches a drain colour exactly when they are the same colour |
| `PhysicsSpec.DrainResponse` | src/physics.rs:212-240 | captures exactly when the centre is within a quarter tile of the drain's centre and the colours match; a capture sets captured and clears alive; position and velocity never change |
| `Physics.CheckDrainCapture` | src/physics.rs:212-240 | performs `DrainResponse` |
| `Physics.DeflectFromRLColored` | src/physics.rs:243-246 | a coloured reflective wall performs `WallResponse` |
| `Physics.DeflectFromRLGray` | src/physics.rs:249-254 | a gray reflective wall performs `WallResponse` |
| `PhysicsSpec.Blocks` | src/physics.rs:260-266 | a field blocks exactly the motion with a negative component along its cardinal direction; diagonal fields block nothing |
| `PhysicsSpec.OneWayResponse` | src/physics.rs:257-274 | blocked motion meets a wall; any other motion passes unchanged and without a collision |
| `Physics.DeflectFromOneWayForce` | src/physics.rs:257-274 | performs `OneWayResponse` |
| `PhysicsSpec.TileResponse` | src/physics.rs:94-119 | floor never collides; walls, breakable walls and reflective walls are walls; only deflecting tiles, drains and one-way fields can collide; only a drain changes the flags; every response keeps the cell, radius and colour and never revives or releases a captured ball |
| `Physics.CheckSingleTileCollision` | src/physics.rs:94-119 | performs `TileResponse` |
| `PhysicsSpec.EvolvesKeepsInvariant` | src/physics.rs:232-235 | a response that may only capture by killing keeps "captured implies not alive" |
| `PhysicsSpec.CandidateRange` | src/physics.rs:75-78 | the clamped range stays on the board and holds every row and column that the ball's bounding box reaches |
| `PhysicsSpec.RowCellsShape` | src/physics.rs:81 | one row of the scan holds the columns from the first to the last, left to right |
| `PhysicsSpec.RowCellsSnoc` | src/physics.rs:81 | one more column appends one cell |
| `PhysicsSpec.CellsSnoc` | src/physics.rs:80 | one more row appends that row's cells |
| `PhysicsSpec.CellsMembers` | src/physics.rs:80-81 | the scanned cells are exactly the cells of the rectangle |
| `PhysicsSpec.CellsRowMajor` | src/physics.rs:80-81 | the scanned cells come in strict row-major order, so each is visited once |
| `PhysicsSpec.Scan` | src/physics.rs:80-88 | visiting cells in order keeps the cell, radius and colour, and keeps "captured implies not alive" |
| `PhysicsSpec.ScanSnoc` | src/physics.rs:82-86 | a further cell is visited with the ball that the earlier cells left, and its collision is OR-ed in |
| `PhysicsSpec.ScanAppend` | src/physics.rs:80-88 | scanning two runs of cells is scanning the second with the ball the first left, collisions OR-ed |
| `PhysicsSpec.QuietScan` | src/physics.rs:95-96 | a scan over empty or floor cells reports nothing and changes nothing |
| `PhysicsSpec.TileCollision` | src/physics.rs:71-91 | the whole tile check keeps the cell, radius and colour and keeps "captured implies not alive" |
| `PhysicsSpec.OverlapIsCandidate` | src/physics.rs:75-81 | a tile stored at its own cell that the ball overlaps is always among the scanned cells |
| `PhysicsSpec.OverlapTouches` | src/physics.rs:129-136 | a ball overlapping a tile reaches into the tile's row and column |
| `PhysicsSpec.OverlapNear` | src/physics.rs:129-136 | the closest point of an overlapped tile is within the radius on each axis |
| `Physics.CheckTileCollision` | src/physics.rs:71-91 | performs `TileCollision`: the candidate range from the bounding box, then every cell in row-major order |
| `Physics.ScanRows` | src/physics.rs:80-88 | the outer loop performs `Scan` over the rows of the rectangle |
| `Physics.ScanRow` | src/physics.rs:81-87 | the inner loop performs `Scan` over one row |

## Left out

- Rendering, the FLTK window and the picture atlas (`src/main.rs`, `src/bmp_rects.rs`) are not part of this model. The same goes for `BoardColor::to_fltk_color`.
- `f64` is idealised as `real`: rounding, NaN and infinities are not modelled. Square-root distance tests are stated squared, which is exact over the reals.
- Physics.UpdateBallPosition: the friction factor `FRICTION.powf(delta_time)` is a parameter, because `powf` has no exact model over the reals.
- Physics.DeflectFromBumper: the `atan2`/`cos`/`sin` redirection, the 1.2 speed boost and the push-out distance are supplied as the `bounce` function. Only the contact test and "nothing but position and velocity changes" are stated.
- The physics code indexes the board's cells as `BoardTile`s and calls `get_tile`, but `src/board.rs` stores `Option<Ball>` and has no `get_tile`. The physics works on a separate 9-by-9 `TileBoard` value. Its `GetTile` returns the tile of an in-range cell and nothing outside.
- `src/ball.rs` declares three ball colours and only row, col and colour. The code that uses balls needs six colours (`handle_click`, drains) and position, velocity, radius and flags (physics). The model follows that code: `Balls.BallColor` has six colours, and the physics ball is `Physics.PhysicsBall`.
- `TILE_SIZE` comes from `src/main.rs` (48 pixels), where it is an `i32`. The physics uses it as a 48.0 real.
- Games.ClickColor: `row + col` wraps around as in a release build. A debug build panics on that overflow, which the model does not capture.
- Games.Game.HandleClick: division by a zero tile size and `i32::MIN / -1` panic in Rust. The precondition excludes them.
- BreakWall behaves as a plain wall, and a gray reflective wall is always shut. This is what the code does; breaking and periodic opening are not implemented there.
- Physics.ScanRows, Physics.ScanRow and Physics.PushOutOfWall are pieces of `check_tile_collision` and `deflect_from_wall`, split out as separate methods. Each performs exactly the part of the source function it covers.
