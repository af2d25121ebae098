/**
 * Positions of tiles in the grid of a level (line, column), and which
 * positions touch along which side. Hexagonal grids use "odd-q" columns: a
 * hexagon in an odd column sits half a cell lower than its neighbours in the
 * even columns on either side of it.
 */
module Positions {
  import opened Wrappers
  import opened TileShapes

  /** A position is never negative; `At` is the only way to build one from arbitrary numbers. */
  datatype Position = Position(line: nat, column: nat)

  datatype PositionError = NegativePosition

  const Origin: Position := Position(0, 0)

  /** The position at line `i`, column `j`, refused when either is negative. */
  function At(i: int, j: int): (r: Result<Position, PositionError>)
    ensures r.Success? <==> i >= 0 && j >= 0
    ensures r.Success? ==> r.value.line == i && r.value.column == j
  {
    if i < 0 || j < 0 then Failure(NegativePosition) else Success(Position(i, j))
  }

  /** The coordinates of a position survive `At`. */
  lemma AtOfPosition(p: Position)
    ensures At(p.line, p.column) == Success(p)
  {
  }

  /**
   * The (line, column) on the other side of side `k` of a tile of shape `s` at
   * `p`, before coordinates off the grid are discarded. Sides are numbered
   * clockwise from the top.
   */
  function Candidate(p: Position, s: Shape, k: nat): (int, int)
    requires k < Sides(s)
  {
    var i, j := p.line, p.column;
    match s
    case Square =>
      if k == 0 then (i - 1, j)
      else if k == 1 then (i, j + 1)
      else if k == 2 then (i + 1, j)
      else (i, j - 1)
    case Hexagon =>
      if k == 0 then (i - 1, j)
      else if k == 3 then (i + 1, j)
      else if j % 2 == 1 then
        if k == 1 then (i, j + 1)
        else if k == 2 then (i + 1, j + 1)
        else if k == 4 then (i + 1, j - 1)
        else (i, j - 1)
      else
        if k == 1 then (i - 1, j + 1)
        else if k == 2 then (i, j + 1)
        else if k == 4 then (i, j - 1)
        else (i - 1, j - 1)
  }

  /**
   * The side of a tile of shape `s` at `p` along which it touches position
   * `q`, or -1 when they do not touch. The side found is exactly the one whose
   * candidate neighbour is `q`.
   */
  function TouchingSide(p: Position, q: Position, s: Shape): (r: int)
    ensures -1 <= r < Sides(s)
    ensures r != -1 ==> Candidate(p, s, r) == (q.line, q.column)
  {
    var i, j := p.line, p.column;
    match s
    case Square =>
      if q.line == i - 1 && q.column == j then 0
      else if q.line == i && q.column == j + 1 then 1
      else if q.line == i + 1 && q.column == j then 2
      else if q.line == i && q.column == j - 1 then 3
      else -1
    case Hexagon =>
      if q.line == i - 1 && q.column == j then 0
      else if q.line == i + 1 && q.column == j then 3
      else if j % 2 == 1 then
        if q.line == i && q.column == j + 1 then 1
        else if q.line == i + 1 && q.column == j + 1 then 2
        else if q.line == i + 1 && q.column == j - 1 then 4
        else if q.line == i && q.column == j - 1 then 5
        else -1
      else
        if q.line == i - 1 && q.column == j + 1 then 1
        else if q.line == i && q.column == j + 1 then 2
        else if q.line == i && q.column == j - 1 then 4
        else if q.line == i - 1 && q.column == j - 1 then 5
        else -1
  }

  /** Whether `q` touches a tile of shape `s` at `p`. */
  predicate IsNeighbor(p: Position, q: Position, s: Shape) {
    TouchingSide(p, q, s) != -1
  }

  /** Every candidate that lies on the grid touches along the side it was computed for. */
  lemma CandidateTouches(p: Position, s: Shape, k: nat)
    requires k < Sides(s)
    requires Candidate(p, s, k).0 >= 0 && Candidate(p, s, k).1 >= 0
    ensures TouchingSide(p, Position(Candidate(p, s, k).0, Candidate(p, s, k).1), s) == k
  {
  }

  /** No position touches itself. */
  lemma NotOwnNeighbor(p: Position, s: Shape)
    ensures !IsNeighbor(p, p, s)
  {
  }

  /**
   * Touching is symmetric, and the two tiles touch along opposite sides: if
   * `q` lies across side `k` of `p`, then `p` lies across the opposite side of
   * `q`. This is what makes a connection between two tiles well defined.
   */
  lemma {:induction false} TouchingSideSymmetric(p: Position, q: Position, s: Shape)
    requires IsNeighbor(p, q, s)
    ensures TouchingSide(q, p, s) == Opposite(TouchingSide(p, q, s), s)
  {
    var k := TouchingSide(p, q, s);
    if s == Hexagon && k != 0 && k != 3 {
      if p.column % 2 == 1 {
        assert q.column % 2 == 0;
      } else {
        assert q.column % 2 == 1;
      }
    }
  }

  /** Touching positions are at most one line and one column apart. */
  lemma NeighborsAreAdjacent(p: Position, q: Position, s: Shape)
    requires IsNeighbor(p, q, s)
    ensures -1 <= q.line - p.line <= 1 && -1 <= q.column - p.column <= 1
    ensures p != q
  {
  }

  /**
   * The positions that touch a tile of shape `s` at `p`, in the order of the
   * sides they touch, leaving out those that would lie off the grid.
   */
  method NeighborPositions(p: Position, s: Shape) returns (res: seq<Position>)
    ensures forall q :: q in res <==> IsNeighbor(p, q, s)
    ensures forall m, n :: 0 <= m < n < |res| ==> TouchingSide(p, res[m], s) < TouchingSide(p, res[n], s)
    ensures |res| <= Sides(s)
  {
    res := [];
    var k := 0;
    while k < Sides(s)
      invariant 0 <= k <= Sides(s)
      invariant |res| <= k
      invariant forall q :: q in res <==> 0 <= TouchingSide(p, q, s) < k
      invariant forall m, n :: 0 <= m < n < |res| ==> TouchingSide(p, res[m], s) < TouchingSide(p, res[n], s)
    {
      var c := Candidate(p, s, k);
      if c.0 >= 0 && c.1 >= 0 {
        CandidateTouches(p, s, k);
        res := res + [Position(c.0, c.1)];
      }
      k := k + 1;
    }
  }
}
