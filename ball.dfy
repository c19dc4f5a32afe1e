/** The ball record stored in the board grid, and the six ball colours
    the click handler and the drains use. */
module Balls {
  import opened Rust

  datatype BallColor = Red | Blue | Green | Yellow | Cyan | Gray

  /** Position of a colour in the declaration order of the enumeration. */
  function BallColorIndex(c: BallColor): (i: nat)
    ensures i < 6
  {
    match c
    case Red => 0
    case Blue => 1
    case Green => 2
    case Yellow => 3
    case Cyan => 4
    case Gray => 5
  }

  datatype Ball = Ball(row: usize, col: usize, color: BallColor)
}
