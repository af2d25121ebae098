/** The two shapes a tile can have, and how their sides face each other. */
module TileShapes {
  import opened Wrappers

  datatype Shape = Square | Hexagon

  /** The number of sides of a tile of this shape: always even, so every side has an opposite one. */
  function Sides(s: Shape): (n: nat)
    ensures n >= 4 && n % 2 == 0
  {
    match s
    case Square => 4
    case Hexagon => 6
  }

  /** The one-letter code of the shape in the header of a level file. */
  function FileIdentifier(s: Shape): (code: string)
    ensures |code| == 1
  {
    match s
    case Square => "S"
    case Hexagon => "H"
  }

  /** The shape a level-file header names, or `None` (a Java `null`) for any other code. */
  function ShapeOfIdentifier(code: string): (r: Option<Shape>)
    ensures r.Some? ==> FileIdentifier(r.value) == code
    ensures r.None? ==> code != "S" && code != "H"
  {
    if code == "H" then Some(Hexagon)
    else if code == "S" then Some(Square)
    else None
  }

  /** Writing a shape's code and reading it back gives the shape. */
  lemma ShapeOfFileIdentifier(s: Shape)
    ensures ShapeOfIdentifier(FileIdentifier(s)) == Some(s)
  {
  }

  /** The side of a neighbouring tile that faces side `k`: half a turn further round. */
  function Opposite(k: nat, s: Shape): (r: nat)
    requires k < Sides(s)
    ensures r < Sides(s) && r != k
    ensures r == k + Sides(s) / 2 || r == k - Sides(s) / 2
  {
    (k + Sides(s) / 2) % Sides(s)
  }

  /** Facing is symmetric: the side opposite the opposite side is the side itself. */
  lemma OppositeInvolutive(k: nat, s: Shape)
    requires k < Sides(s)
    ensures Opposite(Opposite(k, s), s) == k
  {
  }
}
