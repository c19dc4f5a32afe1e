/** Tile kinds of the board and their static, collision-relevant
    properties: whether a tile deflects a ball, whether it can capture
    one, and which board colour it carries. */
module Tiles {
  import opened Rust

  datatype Direction = Up | Down | Left | Right | UpLeft | UpRight | DownLeft | DownRight

  /** The four directions the chevron and force-field rules act on. */
  predicate IsCardinal(d: Direction) {
    d == Up || d == Down || d == Left || d == Right
  }

  datatype BoardColor = Red | Blue | Green | Yellow | Cyan | Gray

  /** Position of a colour in the declaration order of the enumeration. */
  function BoardColorIndex(c: BoardColor): (i: nat)
    ensures i < 6
  {
    match c
    case Red => 0
    case Blue => 1
    case Green => 2
    case Yellow => 3
    case Cyan => 4
    case Gray => 5
  }

  datatype TileType =
    | Floor
    | Wall
    | BreakWall
    | Bumper
    | Chevron(dir: Direction)
    | Drain(color: BoardColor)
    | RLColored(color: BoardColor)
    | RLGray
    | OneWayForce(dir: Direction)

  datatype BoardTile = BoardTile(row: usize, col: usize, tileType: TileType, shadowed: bool, closestSide: u8)

  /** `BoardTile::new`: a tile at (row, col) of the given kind, not
      shadowed and with no side recorded as hit. */
  function NewTile(row: usize, col: usize, tileType: TileType): (t: BoardTile)
    ensures t.row == row && t.col == col && t.tileType == tileType
    ensures !t.shadowed && t.closestSide == 0
  {
    BoardTile(row, col, tileType, false, 0)
  }

  /** Solid tiles: everything except open floor, drains and one-way fields. */
  function ShouldDeflect(t: BoardTile): (r: bool)
    ensures r <==> !(t.tileType.Floor? || t.tileType.Drain? || t.tileType.OneWayForce?)
  {
    match t.tileType
    case Wall | BreakWall | Bumper | RLColored(_) | RLGray | Chevron(_) => true
    case _ => false
  }

  /** Only drains capture; a capturing tile never deflects and always
      has a colour to match against. */
  function CanCapture(t: BoardTile): (r: bool)
    ensures r <==> t.tileType.Drain?
    ensures r ==> !ShouldDeflect(t)
    ensures r ==> GetColor(t).Some?
  {
    match t.tileType
    case Drain(_) => true
    case _ => false
  }

  /** The colour of a drain or of a coloured reflective wall; no other
      kind carries one. */
  function GetColor(t: BoardTile): (r: Option<BoardColor>)
    ensures r.Some? <==> (t.tileType.Drain? || t.tileType.RLColored?)
    ensures r.Some? ==> r.value == t.tileType.color
  {
    match t.tileType
    case Drain(color) => Some(color)
    case RLColored(color) => Some(color)
    case _ => None
  }
}
