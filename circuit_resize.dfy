/**
 * The level editor's resizing of a circuit: adding or removing the last line
 * or the last column of its grid. A line or column is added as empty tiles
 * of the circuit's shape at the positions just past the grid, one `addTile`
 * after the other (a position already taken is skipped), and removed one
 * `removeTile` after the other (the tile at the origin always stays).
 */
module CircuitResize {
  import opened Wrappers
  import opened TileShapes
  import opened Components
  import opened Positions
  import opened TileStates
  import opened CircuitModel

  /** `addTile` of a new empty tile of shape `s` at `p`: appended unless `p` is taken. */
  function WithEmptyTileAt(cs: seq<TileState>, s: Shape, p: Position): (r: seq<TileState>)
  {
    if Occupied(cs, p) then cs else cs + [NewTile(s, p, Empty)]
  }

  /** New empty tiles at the positions `ps`, added one after the other. */
  function AddEmptyTiles(cs: seq<TileState>, s: Shape, ps: seq<Position>): (r: seq<TileState>)
    decreases |ps|
  {
    if ps == [] then cs else AddEmptyTiles(WithEmptyTileAt(cs, s, ps[0]), s, ps[1..])
  }

  /** The tiles at the positions `ps` removed one after the other. */
  function RemoveTiles(cs: seq<TileState>, ps: seq<Position>): (r: seq<TileState>)
    decreases |ps|
  {
    if ps == [] then cs else RemoveTiles(WithoutTileAt(cs, ps[0]), ps[1..])
  }

  /**
   * Adding keeps every old tile, first and in order, and the circuit valid;
   * each tile it appends is a new empty tile of shape `s` at one of the
   * positions, and afterwards every one of the positions holds a tile.
   */
  lemma {:induction false} AddEmptyTilesSpec(cs: seq<TileState>, s: Shape, ps: seq<Position>)
    requires Valid(cs)
    ensures var r := AddEmptyTiles(cs, s, ps);
      && Valid(r) && |cs| <= |r| && r[..|cs|] == cs
      && (forall k :: |cs| <= k < |r| ==> r[k] == NewTile(s, r[k].position, Empty) && r[k].position in ps)
      && (forall p :: p in ps ==> Occupied(r, p))
    decreases |ps|
  {
    if ps != [] {
      var c1 := WithEmptyTileAt(cs, s, ps[0]);
      WithEmptyTileAtSpec(cs, s, ps[0]);
      AddEmptyTilesSpec(c1, s, ps[1..]);
      var r := AddEmptyTiles(cs, s, ps);
      assert r == AddEmptyTiles(c1, s, ps[1..]);
      assert r[..|cs|] == c1[..|cs|];
      forall k | |cs| <= k < |r|
        ensures r[k] == NewTile(s, r[k].position, Empty) && r[k].position in ps
      {
        if k < |c1| {
          assert r[k] == c1[k];
        } else {
          assert r[k].position in ps[1..];
        }
      }
      OccupiedPrefix(c1, r, ps[0]);
      forall p | p in ps
        ensures Occupied(r, p)
      {
        if p != ps[0] {
          assert p in ps[1..];
        }
      }
    }
  }

  /** One `addTile`: the circuit stays valid, grows by at most the new tile, and `p` is then taken. */
  lemma WithEmptyTileAtSpec(cs: seq<TileState>, s: Shape, p: Position)
    requires Valid(cs)
    ensures var c1 := WithEmptyTileAt(cs, s, p);
      && Valid(c1) && |cs| <= |c1| <= |cs| + 1 && c1[..|cs|] == cs
      && (|cs| < |c1| ==> c1[|cs|] == NewTile(s, p, Empty))
      && Occupied(c1, p)
  {
    if !Occupied(cs, p) {
      var c1 := cs + [NewTile(s, p, Empty)];
      assert c1[..|cs|] == cs;
      IndexAtFirst(c1, p, |cs|);
    }
  }

  /** A position taken in a circuit is still taken once tiles are appended to it. */
  lemma OccupiedPrefix(c: seq<TileState>, r: seq<TileState>, p: Position)
    requires |c| <= |r| && r[..|c|] == c && Occupied(c, p)
    ensures Occupied(r, p)
  {
    var k := IndexAt(c, p).value;
    assert forall j :: 0 <= j <= k ==> r[j] == c[j];
    IndexAtFirst(r, p, k);
  }

  /**
   * Removing keeps the circuit valid and keeps exactly the tiles that are
   * not at one of the positions, and the tile at the origin in any case.
   */
  lemma {:induction false} RemoveTilesSpec(cs: seq<TileState>, ps: seq<Position>)
    requires Valid(cs)
    ensures Valid(RemoveTiles(cs, ps))
    ensures forall t :: t in RemoveTiles(cs, ps) <==> t in cs && (t.position !in ps || t.position == Origin)
    decreases |ps|
  {
    if ps != [] {
      WithoutTileAtKeepsOthers(cs, ps[0]);
      RemoveTilesSpec(WithoutTileAt(cs, ps[0]), ps[1..]);
      assert forall q :: q in ps <==> q == ps[0] || q in ps[1..];
    }
  }

  /** No position is listed twice. */
  predicate DistinctPositions(ps: seq<Position>) {
    forall a, b :: 0 <= a < b < |ps| ==> ps[a] != ps[b]
  }

  /** New empty tiles of shape `s`, one at each of the positions. */
  function EmptyTilesAt(s: Shape, ps: seq<Position>): (r: seq<TileState>)
  {
    seq(|ps|, m requires 0 <= m < |ps| => NewTile(s, ps[m], Empty))
  }

  /** The first tile at a position the front does not hold is found in the back. */
  lemma {:induction false} IndexAtAppend(cs: seq<TileState>, rest: seq<TileState>, p: Position)
    requires !Occupied(cs, p) && rest != [] && rest[0].position == p
    ensures IndexAt(cs + rest, p) == Some(|cs|)
    decreases |cs|
  {
    if cs != [] {
      assert (cs + rest)[1..] == cs[1..] + rest;
      IndexAtAppend(cs[1..], rest, p);
    }
  }

  /** Positions all free and all different are each given a new tile, in order, at the end. */
  lemma {:induction false} AddEmptyTilesAtFree(cs: seq<TileState>, s: Shape, ps: seq<Position>)
    requires DistinctPositions(ps) && forall p :: p in ps ==> !Occupied(cs, p)
    ensures AddEmptyTiles(cs, s, ps) == cs + EmptyTilesAt(s, ps)
    decreases |ps|
  {
    if ps != [] {
      var c1 := cs + [NewTile(s, ps[0], Empty)];
      forall p | p in ps[1..]
        ensures !Occupied(c1, p)
      {
        var m :| 1 <= m < |ps| && ps[m] == p;
        assert ps[0] != ps[m] && p in ps;
        assert forall k :: 0 <= k < |cs| ==> cs[k].position != p;
        assert forall k :: 0 <= k < |c1| ==> c1[k].position != p;
        IndexAtFirst(c1, p, |c1|);
      }
      AddEmptyTilesAtFree(c1, s, ps[1..]);
      assert c1 + EmptyTilesAt(s, ps[1..]) == cs + EmptyTilesAt(s, ps);
    }
  }

  /** Removing, in the same order, the tiles just added at free positions other than the origin gives the circuit back. */
  lemma {:induction false} RemoveAddedTiles(cs: seq<TileState>, s: Shape, ps: seq<Position>)
    requires DistinctPositions(ps) && Origin !in ps && forall p :: p in ps ==> !Occupied(cs, p)
    ensures RemoveTiles(cs + EmptyTilesAt(s, ps), ps) == cs
    decreases |ps|
  {
    if ps == [] {
      assert cs + EmptyTilesAt(s, ps) == cs;
    } else {
      RemoveFirstAdded(cs, s, ps);
      assert DistinctPositions(ps[1..]) && forall p :: p in ps[1..] ==> p in ps;
      RemoveAddedTiles(cs, s, ps[1..]);
    }
  }

  /** Removing the tile at the first of the positions just added drops that new tile alone. */
  lemma RemoveFirstAdded(cs: seq<TileState>, s: Shape, ps: seq<Position>)
    requires ps != [] && ps[0] != Origin && !Occupied(cs, ps[0])
    ensures WithoutTileAt(cs + EmptyTilesAt(s, ps), ps[0]) == cs + EmptyTilesAt(s, ps[1..])
  {
    var x := cs + EmptyTilesAt(s, ps);
    IndexAtAppend(cs, EmptyTilesAt(s, ps), ps[0]);
    assert WithoutTileAt(x, ps[0]) == x[..|cs|] + x[|cs| + 1..];
    AddedSplit(cs, s, ps);
  }

  /** The circuit with the new tiles, cut around the first new tile. */
  lemma AddedSplit(cs: seq<TileState>, s: Shape, ps: seq<Position>)
    requires ps != []
    ensures var x := cs + EmptyTilesAt(s, ps);
      x[..|cs|] + x[|cs| + 1..] == cs + EmptyTilesAt(s, ps[1..])
  {
    var x := cs + EmptyTilesAt(s, ps);
    assert x[..|cs|] == cs;
    assert x[|cs| + 1..] == EmptyTilesAt(s, ps[1..]);
  }

  /** A circuit whose tiles fit in `d` and reach its last line and last column has dimension `d`. */
  lemma ExtentIs(cs: seq<TileState>, d: Size)
    requires forall k :: 0 <= k < |cs| ==> cs[k].position.line < d.height && cs[k].position.column < d.width
    requires exists k :: 0 <= k < |cs| && cs[k].position.line == d.height - 1
    requires exists k :: 0 <= k < |cs| && cs[k].position.column == d.width - 1
    ensures Extent(cs) == d
  {
    var e := Extent(cs);
    var a :| 0 <= a < |cs| && cs[a].position.line == d.height - 1;
    var b :| 0 <= b < |cs| && cs[b].position.line == e.height - 1;
    var c :| 0 <= c < |cs| && cs[c].position.column == d.width - 1;
    var f :| 0 <= f < |cs| && cs[f].position.column == e.width - 1;
  }

  /**
   * Where a new line goes (`add`) or which tiles make up the last line
   * (`!add`) in column `j` of a grid `h` lines high: in a hexagonal grid an
   * odd column is half a cell lower and holds one tile less, so its new tile
   * goes one line higher.
   */
  function LineTarget(h: nat, s: Shape, add: bool, j: nat): Position
    requires h >= (if add then 1 else 2)
  {
    if s == Hexagon && j % 2 == 1 then
      (if add then Position(h - 1, j) else Position(h - 2, j))
    else
      (if add then Position(h, j) else Position(h - 1, j))
  }

  /** The line targets of the columns `j` to the last. */
  function LineTargetsFrom(d: Size, s: Shape, add: bool, j: nat): (ps: seq<Position>)
    requires d.width > 0 ==> d.height >= (if add then 1 else 2)
  {
    if j >= d.width then []
    else seq(d.width - j, m requires 0 <= m < d.width - j => LineTarget(d.height, s, add, j + m))
  }

  /** The targets from column `j` on: the target of column `j`, then those after it. */
  lemma LineTargetsFromStep(d: Size, s: Shape, add: bool, j: nat)
    requires d.width > 0 ==> d.height >= (if add then 1 else 2)
    requires j < d.width
    ensures LineTargetsFrom(d, s, add, j) == [LineTarget(d.height, s, add, j)] + LineTargetsFrom(d, s, add, j + 1)
  {
    var ps, rest := LineTargetsFrom(d, s, add, j), LineTargetsFrom(d, s, add, j + 1);
    assert ps[0] == LineTarget(d.height, s, add, j);
    assert forall m :: 0 <= m < |rest| ==> ps[m + 1] == rest[m];
    assert ps == [ps[0]] + rest;
  }

  /** The column target of line `i`, when there is one: a hexagonal grid of odd width gets no tile at the bottom of its new (odd) column. */
  function ColumnTarget(d: Size, s: Shape, add: bool, i: nat): seq<Position>
    requires !add ==> d.width >= 1
  {
    if add then
      (if s == Hexagon && i == d.height - 1 && d.width % 2 == 1 then [] else [Position(i, d.width)])
    else [Position(i, d.width - 1)]
  }

  /** The column targets of the lines `i` to the last. */
  function ColumnTargetsFrom(d: Size, s: Shape, add: bool, i: nat): (ps: seq<Position>)
    requires !add && d.height > 0 ==> d.width >= 1
    decreases d.height - i
  {
    if i >= d.height then [] else ColumnTarget(d, s, add, i) + ColumnTargetsFrom(d, s, add, i + 1)
  }

  /**
   * `addLine` (`add`) or `removeLine` (`!add`): the new tiles take the square
   * shape when every tile is square and the hexagonal one otherwise; a
   * circuit with mixed shapes is refused. The last line of a one-line grid is
   * never removed, nor the second line of a hexagonal grid two lines high and
   * wider than high (that would leave hexagons apart).
   */
  function ResizedLines(cs: seq<TileState>, add: bool): (r: Result<seq<TileState>, CircuitError>)
  {
    var d := Extent(cs);
    match AllOfShape(cs, Square)
    case Failure(e) => Failure(e)
    case Success(squared) =>
      var s := if squared then Square else Hexagon;
      if !add && d.height == 1 then Success(cs)
      else if !add && d.width > d.height && d.height == 2 && s == Hexagon then Success(cs)
      else if add then Success(AddEmptyTiles(cs, s, LineTargetsFrom(d, s, true, 0)))
      else Success(RemoveTiles(cs, LineTargetsFrom(d, s, false, 0)))
  }

  /**
   * `addColumn` (`add`) or `removeColumn` (`!add`): the new tiles are
   * hexagonal when every tile is and square otherwise; a circuit with mixed
   * shapes is refused. The last column is never removed, and a hexagonal
   * grid one line high gets no new column.
   */
  function ResizedColumns(cs: seq<TileState>, add: bool): (r: Result<seq<TileState>, CircuitError>)
  {
    match AllOfShape(cs, Hexagon)
    case Failure(e) => Failure(e)
    case Success(hexagonal) =>
      var s := if hexagonal then Hexagon else Square;
      var d := Extent(cs);
      if !add && d.width == 1 then Success(cs)
      else if add && d.height == 1 && s == Hexagon then Success(cs)
      else if add then Success(AddEmptyTiles(cs, s, ColumnTargetsFrom(d, s, true, 0)))
      else Success(RemoveTiles(cs, ColumnTargetsFrom(d, s, false, 0)))
  }

  /** Past its guards, `addOrRemoveLine` adds or removes the line targets of the circuit's size. */
  lemma LinesResized(cs: seq<TileState>, add: bool, d: Size, squared: bool, shape: Shape)
    requires d == Extent(cs)
    requires AllOfShape(cs, Square) == Success(squared) && shape == if squared then Square else Hexagon
    requires !(!add && d.height == 1) && !(!add && d.width > d.height && d.height == 2 && shape == Hexagon)
    ensures d.width > 0 ==> d.height >= (if add then 1 else 2)
    ensures ResizedLines(cs, add) == Success(
      if add then AddEmptyTiles(cs, shape, LineTargetsFrom(d, shape, true, 0))
      else RemoveTiles(cs, LineTargetsFrom(d, shape, false, 0)))
  {
  }

  /** Past its guards, `addOrRemoveColumn` adds or removes the column targets of the circuit's size. */
  lemma ColumnsResized(cs: seq<TileState>, add: bool, d: Size, hexagonal: bool, shape: Shape)
    requires d == Extent(cs)
    requires AllOfShape(cs, Hexagon) == Success(hexagonal) && shape == if hexagonal then Hexagon else Square
    requires !(!add && d.width == 1) && !(add && d.height == 1 && shape == Hexagon)
    ensures !add && d.height > 0 ==> d.width >= 1
    ensures ResizedColumns(cs, add) == Success(
      if add then AddEmptyTiles(cs, shape, ColumnTargetsFrom(d, shape, true, 0))
      else RemoveTiles(cs, ColumnTargetsFrom(d, shape, false, 0)))
  {
  }

  /** What adding or removing lines and columns keeps, whatever the circuit. */
  predicate ResizeKeeps(cs: seq<TileState>, r: Result<seq<TileState>, CircuitError>, add: bool) {
    && (r.Failure? <==> exists a, b :: 0 <= a < |cs| && 0 <= b < |cs| && cs[a].shape != cs[b].shape)
    && (r.Success? ==> Valid(r.value))
    && (r.Success? && add ==>
          && |cs| <= |r.value| && r.value[..|cs|] == cs
          && (forall k :: |cs| <= k < |r.value| ==> IsEmpty(r.value[k]) && !r.value[k].powered))
    && (r.Success? && !add ==> forall t :: t in r.value ==> t in cs)
    && (r.Success? ==> forall t :: t in cs && t.position == Origin ==> t in r.value)
  }

  /** Adding empty tiles to a circuit of one shape keeps what `ResizeKeeps` asks of an addition. */
  lemma AddedKeeps(cs: seq<TileState>, s: Shape, ps: seq<Position>)
    requires Valid(cs)
    requires forall a, b :: 0 <= a < |cs| && 0 <= b < |cs| ==> cs[a].shape == cs[b].shape
    ensures ResizeKeeps(cs, Success(AddEmptyTiles(cs, s, ps)), true)
  {
    AddEmptyTilesSpec(cs, s, ps);
    var r := AddEmptyTiles(cs, s, ps);
    forall t | t in cs && t.position == Origin
      ensures t in r
    {
      assert t in r[..|cs|];
    }
  }

  /** Removing tiles from a circuit of one shape keeps what `ResizeKeeps` asks of a removal. */
  lemma RemovedKeeps(cs: seq<TileState>, ps: seq<Position>)
    requires Valid(cs)
    requires forall a, b :: 0 <= a < |cs| && 0 <= b < |cs| ==> cs[a].shape == cs[b].shape
    ensures ResizeKeeps(cs, Success(RemoveTiles(cs, ps)), false)
  {
    RemoveTilesSpec(cs, ps);
  }

  /**
   * Adding or removing a line refuses exactly the circuits with mixed
   * shapes; otherwise it keeps the circuit valid, adding only empty unpowered
   * tiles after the old ones or removing only tiles, and it never removes the
   * tile at the origin.
   */
  lemma ResizedLinesKeep(cs: seq<TileState>, add: bool)
    requires Valid(cs)
    ensures ResizeKeeps(cs, ResizedLines(cs, add), add)
  {
    var d := Extent(cs);
    match AllOfShape(cs, Square)
    case Failure(_) =>
    case Success(squared) =>
      var s := if squared then Square else Hexagon;
      if !add && d.height == 1 {
      } else if !add && d.width > d.height && d.height == 2 && s == Hexagon {
      } else if add {
        AddedKeeps(cs, s, LineTargetsFrom(d, s, true, 0));
      } else {
        RemovedKeeps(cs, LineTargetsFrom(d, s, false, 0));
      }
  }

  /** Adding or removing a line or a column leaves an empty circuit empty. */
  lemma ResizeEmptyIsNoOp(add: bool)
    ensures ResizedLines([], add) == Success([])
    ensures ResizedColumns([], add) == Success([])
  {
  }

  /** The same for adding or removing a column. */
  lemma ResizedColumnsKeep(cs: seq<TileState>, add: bool)
    requires Valid(cs)
    ensures ResizeKeeps(cs, ResizedColumns(cs, add), add)
  {
    match AllOfShape(cs, Hexagon)
    case Failure(_) =>
    case Success(hexagonal) =>
      var s := if hexagonal then Hexagon else Square;
      var d := Extent(cs);
      if !add && d.width == 1 {
      } else if add && d.height == 1 && s == Hexagon {
      } else if add {
        AddedKeeps(cs, s, ColumnTargetsFrom(d, s, true, 0));
      } else {
        RemovedKeeps(cs, ColumnTargetsFrom(d, s, false, 0));
      }
  }

  /**
   * The new line of a square grid lies just below it, each tile in its own
   * column, and is exactly the last line of the grid one line higher.
   */
  lemma SquareLineTargets(cs: seq<TileState>)
    requires cs != []
    ensures var d := Extent(cs);
      var ps := LineTargetsFrom(d, Square, true, 0);
      && |ps| == d.width && d.width > 0
      && (forall j :: 0 <= j < |ps| ==> ps[j] == Position(d.height, j))
      && DistinctPositions(ps) && Origin !in ps && (forall p :: p in ps ==> !Occupied(cs, p))
      && ps == LineTargetsFrom(Size(d.width, d.height + 1), Square, false, 0)
  {
    var d := Extent(cs);
    var ps := LineTargetsFrom(d, Square, true, 0);
    assert forall j :: 0 <= j < |ps| ==> ps[j] == Position(d.height, j);
  }

  /**
   * The new column of a square grid lies just right of it, one tile per
   * line, and is exactly the last column of the grid one column wider.
   */
  lemma {:induction false} SquareColumnTargets(d: Size, i: nat)
    requires i <= d.height
    ensures var ps := ColumnTargetsFrom(d, Square, true, i);
      && |ps| == d.height - i
      && (forall m :: 0 <= m < |ps| ==> ps[m] == Position(i + m, d.width))
      && ps == ColumnTargetsFrom(Size(d.width + 1, d.height), Square, false, i)
    decreases d.height - i
  {
    if i < d.height {
      SquareColumnTargets(d, i + 1);
    }
  }

  /** A new square column at the right of a non-empty grid is free, holds no position twice and misses the origin. */
  lemma SquareColumnFree(cs: seq<TileState>)
    requires cs != []
    ensures var d := Extent(cs);
      var ps := ColumnTargetsFrom(d, Square, true, 0);
      && DistinctPositions(ps) && Origin !in ps && (forall p :: p in ps ==> !Occupied(cs, p))
      && ps == ColumnTargetsFrom(Size(d.width + 1, d.height), Square, false, 0)
      && |ps| == d.height && d.height > 0
      && (forall m :: 0 <= m < |ps| ==> ps[m] == Position(m, d.width))
  {
    SquareColumnTargets(Extent(cs), 0);
  }

  /** New tiles at positions inside a size, appended to tiles inside it, give tiles inside it. */
  lemma AppendedInside(cs: seq<TileState>, s: Shape, ps: seq<Position>, d: Size)
    requires forall k :: 0 <= k < |cs| ==> cs[k].position.line < d.height && cs[k].position.column < d.width
    requires forall m :: 0 <= m < |ps| ==> ps[m].line < d.height && ps[m].column < d.width
    ensures var c2 := cs + EmptyTilesAt(s, ps);
      forall k :: 0 <= k < |c2| ==> c2[k].position.line < d.height && c2[k].position.column < d.width
  {
    var c2 := cs + EmptyTilesAt(s, ps);
    forall k | 0 <= k < |c2|
      ensures c2[k].position.line < d.height && c2[k].position.column < d.width
    {
      if k >= |cs| {
        assert c2[k].position == ps[k - |cs|];
      }
    }
  }

  /** Square tiles appended to a square circuit leave it square. */
  lemma StillSquare(cs: seq<TileState>, ps: seq<Position>)
    requires cs != [] && forall k :: 0 <= k < |cs| ==> cs[k].shape == Square
    ensures AllOfShape(cs + EmptyTilesAt(Square, ps), Square) == Success(true)
    ensures AllOfShape(cs + EmptyTilesAt(Square, ps), Hexagon) == Success(false)
  {
    var c2 := cs + EmptyTilesAt(Square, ps);
    assert forall k :: 0 <= k < |c2| ==> c2[k].shape == Square;
    assert c2[0].shape != Hexagon;
  }

  /** Adding a line to a square circuit appends a new square line below it, one tile per column. */
  lemma SquareLineAdded(cs: seq<TileState>) returns (ps: seq<Position>)
    requires cs != [] && forall k :: 0 <= k < |cs| ==> cs[k].shape == Square
    ensures ps == LineTargetsFrom(Size(Extent(cs).width, Extent(cs).height + 1), Square, false, 0)
    ensures DistinctPositions(ps) && Origin !in ps && forall p :: p in ps ==> !Occupied(cs, p)
    ensures ResizedLines(cs, true) == Success(cs + EmptyTilesAt(Square, ps))
    ensures Extent(cs + EmptyTilesAt(Square, ps)) == Size(Extent(cs).width, Extent(cs).height + 1)
    ensures AllOfShape(cs + EmptyTilesAt(Square, ps), Square) == Success(true)
  {
    var d := Extent(cs);
    ps := LineTargetsFrom(d, Square, true, 0);
    SquareLineTargets(cs);
    AddEmptyTilesAtFree(cs, Square, ps);
    var c2 := cs + EmptyTilesAt(Square, ps);
    StillSquare(cs, ps);
    assert AllOfShape(cs, Square) == Success(true);
    var d2 := Size(d.width, d.height + 1);
    assert c2[|cs|].position.line == d2.height - 1;
    var kc :| 0 <= kc < |cs| && cs[kc].position.column == d.width - 1;
    assert c2[kc] == cs[kc];
    AppendedInside(cs, Square, ps, d2);
    ExtentIs(c2, d2);
  }

  /**
   * On a square circuit, adding a line makes the grid one line higher, and
   * removing the last line then gives back the very same circuit.
   */
  lemma SquareLineRoundTrip(cs: seq<TileState>)
    requires cs != [] && forall k :: 0 <= k < |cs| ==> cs[k].shape == Square
    ensures ResizedLines(cs, true).Success?
    ensures Extent(ResizedLines(cs, true).value) == Size(Extent(cs).width, Extent(cs).height + 1)
    ensures ResizedLines(ResizedLines(cs, true).value, false) == Success(cs)
  {
    var ps := SquareLineAdded(cs);
    var c2 := cs + EmptyTilesAt(Square, ps);
    assert ResizedLines(c2, false) == Success(RemoveTiles(c2, ps));
    RemoveAddedTiles(cs, Square, ps);
  }

  /** Adding a column to a square circuit appends a new square column at its right, one tile per line. */
  lemma SquareColumnAdded(cs: seq<TileState>) returns (ps: seq<Position>)
    requires cs != [] && forall k :: 0 <= k < |cs| ==> cs[k].shape == Square
    ensures ps == ColumnTargetsFrom(Size(Extent(cs).width + 1, Extent(cs).height), Square, false, 0)
    ensures DistinctPositions(ps) && Origin !in ps && forall p :: p in ps ==> !Occupied(cs, p)
    ensures ResizedColumns(cs, true) == Success(cs + EmptyTilesAt(Square, ps))
    ensures Extent(cs + EmptyTilesAt(Square, ps)) == Size(Extent(cs).width + 1, Extent(cs).height)
    ensures AllOfShape(cs + EmptyTilesAt(Square, ps), Hexagon) == Success(false)
  {
    var d := Extent(cs);
    ps := ColumnTargetsFrom(d, Square, true, 0);
    SquareColumnFree(cs);
    AddEmptyTilesAtFree(cs, Square, ps);
    var c2 := cs + EmptyTilesAt(Square, ps);
    StillSquare(cs, ps);
    StillSquare(cs, []);
    assert cs + EmptyTilesAt(Square, []) == cs;
    var d2 := Size(d.width + 1, d.height);
    assert c2[|cs|].position.column == d2.width - 1;
    var kl :| 0 <= kl < |cs| && cs[kl].position.line == d.height - 1;
    assert c2[kl] == cs[kl];
    AppendedInside(cs, Square, ps, d2);
    ExtentIs(c2, d2);
  }

  /**
   * On a square circuit, adding a column makes the grid one column wider,
   * and removing the last column then gives back the very same circuit.
   */
  lemma SquareColumnRoundTrip(cs: seq<TileState>)
    requires cs != [] && forall k :: 0 <= k < |cs| ==> cs[k].shape == Square
    ensures ResizedColumns(cs, true).Success?
    ensures Extent(ResizedColumns(cs, true).value) == Size(Extent(cs).width + 1, Extent(cs).height)
    ensures ResizedColumns(ResizedColumns(cs, true).value, false) == Success(cs)
  {
    var ps := SquareColumnAdded(cs);
    var c2 := cs + EmptyTilesAt(Square, ps);
    assert ResizedColumns(c2, false) == Success(RemoveTiles(c2, ps));
    RemoveAddedTiles(cs, Square, ps);
  }
}
