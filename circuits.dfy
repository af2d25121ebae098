/**
 * The circuit of a level as a mutable object: an ordered list of `Tile`
 * objects. Each method is specified through `Cells()`, the values of the
 * tiles in list order, by the functions of `CircuitModel`.
 */
module Circuits {
  import opened Wrappers
  import opened TileShapes
  import opened Components
  import opened Positions
  import opened TileStates
  import opened Tiles
  import opened CircuitModel
  import opened CircuitEdits
  import opened CircuitResize

  /** `List.remove(Object)`: the list without the first occurrence of `x`. */
  function RemoveFirst(s: seq<nat>, x: nat): (r: seq<nat>)
    ensures Distinct(s) ==> Distinct(r) && forall j :: j in r <==> j in s && j != x
    decreases |s|
  {
    if s == [] then []
    else if s[0] == x then s[1..]
    else
      var rest := RemoveFirst(s[1..], x);
      assert Distinct(s) ==> Distinct(s[1..]) && s[0] !in s[1..];
      assert forall b :: 0 <= b < |rest| ==> rest[b] in rest;
      [s[0]] + rest
  }

  /** Each index of `extra` not yet in `res` appended to it, in order. */
  method AppendMissing(res: seq<nat>, extra: seq<nat>) returns (r: seq<nat>)
    requires Distinct(res)
    ensures Distinct(r)
    ensures forall j :: j in r <==> j in res || j in extra
  {
    r := res;
    var m := 0;
    while m < |extra|
      invariant 0 <= m <= |extra| && Distinct(r)
      invariant forall j :: j in r <==> j in res || j in extra[..m]
    {
      assert extra[..m + 1] == extra[..m] + [extra[m]];
      if extra[m] !in r {
        r := r + [extra[m]];
      }
      m := m + 1;
    }
    assert extra[..m] == extra;
  }

  /** The `k`-th element once the `i`-th is dropped. */
  lemma DropAt<T>(s: seq<T>, i: nat, k: nat)
    requires i < |s| && k < |s| - 1
    ensures (s[..i] + s[i + 1..])[k] == if k < i then s[k] else s[k + 1]
  {
  }

  /** Tiles that are well formed and apart (no shared position, no shared border) stay so when one is dropped. */
  lemma DropKeepsApart(ts: seq<Tile>, i: nat)
    requires i < |ts|
    requires forall k :: 0 <= k < |ts| ==> ts[k].Valid()
    requires forall a, b :: 0 <= a < b < |ts| ==> ts[a].position != ts[b].position
    requires forall a, b :: 0 <= a < b < |ts| ==> ts[a].border != ts[b].border
    ensures var r := ts[..i] + ts[i + 1..];
      && (forall k :: 0 <= k < |r| ==> r[k].Valid())
      && (forall a, b :: 0 <= a < b < |r| ==> r[a].position != r[b].position)
      && (forall a, b :: 0 <= a < b < |r| ==> r[a].border != r[b].border)
  {
    var r := ts[..i] + ts[i + 1..];
    forall a, b | 0 <= a < b < |r|
      ensures r[a].position != r[b].position && r[a].border != r[b].border
    {
      var a', b' := if a < i then a else a + 1, if b < i then b else b + 1;
      assert r[a] == ts[a'] && r[b] == ts[b'] && a' < b';
    }
  }

  /** The first `i` elements of `a` then the rest of `b`, grown by one: element `i` set from `a`. */
  lemma SpliceStep<T>(a: seq<T>, b: seq<T>, i: nat)
    requires i < |a| == |b|
    ensures (a[..i] + b[i..])[i := a[i]] == a[..i + 1] + b[i + 1..]
    ensures a[i] == b[i] ==> a[..i] + b[i..] == a[..i + 1] + b[i + 1..]
  {
    assert (a[..i] + b[i..])[i := a[i]] == a[..i + 1] + b[i + 1..];
  }

  class Circuit {
    var tiles: seq<Tile>

    /**
     * Every tile is well formed, no two tiles share a position (so no tile is
     * listed twice) and no two tiles share a border array.
     */
    ghost predicate Valid()
      reads this
    {
      && (forall k :: 0 <= k < |tiles| ==> tiles[k].Valid())
      && (forall a, b :: 0 <= a < b < |tiles| ==> tiles[a].position != tiles[b].position)
      && (forall a, b :: 0 <= a < b < |tiles| ==> tiles[a].border != tiles[b].border)
    }

    /** The border arrays of the tiles. */
    ghost function Borders(): set<array<bool>>
      reads this
    {
      set k | 0 <= k < |tiles| :: tiles[k].border
    }

    /** The values of the tiles, in list order. */
    function Cells(): (cs: seq<TileState>)
      reads this, tiles, Borders()
      ensures |cs| == |tiles|
      ensures forall k :: 0 <= k < |tiles| ==> cs[k] == tiles[k].State()
      ensures Valid() ==> CircuitModel.Valid(cs)
    {
      seq(|tiles|, k requires 0 <= k < |tiles| reads this, tiles, Borders() => tiles[k].State())
    }

    /** A circuit with no tile. */
    constructor Empty()
      ensures Valid() && Cells() == []
    {
      tiles := [];
    }

    /** Whether the circuit has no tile. */
    predicate IsEmpty()
      reads this
    {
      |tiles| == 0
    }

    /** The index of the first tile at `p`, found by scanning the list. */
    method IndexOfTileAt(p: Position) returns (r: Option<nat>)
      ensures r == IndexAt(Cells(), p)
    {
      var i := 0;
      while i < |tiles|
        invariant 0 <= i <= |tiles|
        invariant forall k :: 0 <= k < i ==> tiles[k].position != p
      {
        if tiles[i].position == p {
          IndexAtFirst(Cells(), p, i);
          return Some(i);
        }
        i := i + 1;
      }
      IndexAtFirst(Cells(), p, i);
      return None;
    }

    /** The tile at `p`, or `null` when there is none. */
    method GetTileAt(p: Position) returns (t: Tile?)
      ensures t == null <==> !Occupied(Cells(), p)
      ensures t != null ==> t == tiles[IndexAt(Cells(), p).value]
    {
      var at := IndexOfTileAt(p);
      if at.Some? {
        t := tiles[at.value];
      } else {
        t := null;
      }
    }

    /**
     * Appends `t` unless a tile already stands at its position. `t` must not
     * share its border array with a different tile of the circuit.
     */
    method AddTile(t: Tile) returns (added: bool)
      requires Valid() && t.Valid()
      requires forall k :: 0 <= k < |tiles| ==> tiles[k] == t || tiles[k].border != t.border
      modifies this
      ensures Valid()
      ensures added <==> !Occupied(old(Cells()), t.position)
      ensures Cells() == if added then old(Cells()) + [t.State()] else old(Cells())
      ensures tiles == if added then old(tiles) + [t] else old(tiles)
    {
      var at := IndexOfTileAt(t.position);
      if at.Some? {
        return false;
      }
      tiles := tiles + [t];
      added := true;
      assert Cells() == old(Cells()) + [t.State()];
    }

    /** Removes the tile at `p`, unless there is none or `p` is the origin, whose tile is never removed. */
    method RemoveTile(p: Position) returns (removed: bool)
      requires Valid()
      modifies this
      ensures Valid()
      ensures removed <==> Occupied(old(Cells()), p) && p != Origin
      ensures Cells() == WithoutTileAt(old(Cells()), p)
    {
      ghost var before, cells := tiles, Cells();
      var at := IndexOfTileAt(p);
      assert Cells() == cells;
      if at.None? || p == Origin {
        assert WithoutTileAt(cells, p) == cells;
        return false;
      }
      var i := at.value;
      assert WithoutTileAt(cells, p) == cells[..i] + cells[i + 1..];
      tiles := tiles[..i] + tiles[i + 1..];
      removed := true;
      DropKeepsApart(before, i);
      forall k | 0 <= k < |tiles|
        ensures tiles[k].State() == (cells[..i] + cells[i + 1..])[k]
      {
        DropAt(before, i, k);
        DropAt(cells, i, k);
      }
      assert Cells() == cells[..i] + cells[i + 1..];
    }

    /** The dimension of the circuit, from the largest line and column of its tiles. */
    method Dimension() returns (d: Size)
      ensures d == Extent(Cells())
    {
      if |tiles| == 0 {
        return Size(0, 0);
      }
      ghost var cs := Cells();
      var maxRow, maxCol := 0, 0;
      var i := 0;
      while i < |tiles|
        invariant 0 <= i <= |tiles|
        invariant maxRow == MaxLine(cs[..i]) && maxCol == MaxColumn(cs[..i]) && Cells() == cs
      {
        assert cs[..i + 1][..i] == cs[..i];
        if tiles[i].position.line > maxRow {
          maxRow := tiles[i].position.line;
        }
        if tiles[i].position.column > maxCol {
          maxCol := tiles[i].position.column;
        }
        i := i + 1;
      }
      assert cs[..i] == cs;
      d := Size(maxCol + 1, maxRow + 1);
    }

    /** How many tiles there are of each shape. */
    method ShapeCounts() returns (squares: nat, hexagons: nat)
      ensures squares == CountShape(Cells(), Square) && hexagons == CountShape(Cells(), Hexagon)
    {
      ghost var cs := Cells();
      squares, hexagons := 0, 0;
      var i := 0;
      while i < |tiles|
        invariant 0 <= i <= |tiles|
        invariant squares == CountShape(cs[..i], Square) && hexagons == CountShape(cs[..i], Hexagon)
      {
        assert tiles[i].shape == cs[i].shape;
        CountShapeStep(cs, i, Square);
        CountShapeStep(cs, i, Hexagon);
        if tiles[i].shape == Square {
          squares := squares + 1;
        } else {
          hexagons := hexagons + 1;
        }
        i := i + 1;
      }
      assert cs[..i] == cs && Cells() == cs;
    }

    /** Whether every tile is hexagonal; false when empty, an error when the shapes are mixed. */
    method AreAllHexagonalTiles() returns (r: Result<bool, CircuitError>)
      ensures r == AllOfShape(Cells(), Hexagon)
    {
      if |tiles| == 0 {
        return Success(false);
      }
      var squares, hexagons := ShapeCounts();
      if squares != 0 && hexagons != 0 {
        return Failure(MixedShapes);
      }
      return Success(hexagons != 0);
    }

    /** Whether every tile is square; false when empty, an error when the shapes are mixed. */
    method AreAllSquaredTiles() returns (r: Result<bool, CircuitError>)
      ensures r == AllOfShape(Cells(), Square)
    {
      if |tiles| == 0 {
        return Success(false);
      }
      var squares, hexagons := ShapeCounts();
      if squares != 0 && hexagons != 0 {
        return Failure(MixedShapes);
      }
      return Success(squares != 0);
    }

    /** The indices of the tiles carrying `c`, in list order. */
    method TilesWith(c: Component) returns (r: seq<nat>)
      ensures r == IndicesOf(Cells(), c, |Cells()|)
    {
      ghost var cs := Cells();
      r := [];
      var i := 0;
      while i < |tiles|
        invariant 0 <= i <= |tiles|
        invariant r == IndicesOf(cs, c, i) && Cells() == cs
      {
        if tiles[i].component == c {
          r := r + [i];
        }
        i := i + 1;
      }
    }

    /** The sources, in list order. */
    method GetSources() returns (r: seq<nat>)
      ensures r == Sources(Cells())
    {
      r := TilesWith(Source);
    }

    /** The hotspots, in list order. */
    method GetHotspots() returns (r: seq<nat>)
      ensures r == Hotspots(Cells())
    {
      r := TilesWith(Hotspot);
    }

    /** Whether the circuit has tiles and no lamp in it is dark. */
    method AllLampsArePoweredOn() returns (r: bool)
      ensures r == AllLampsPoweredOn(Cells())
    {
      var i := 0;
      while i < |tiles|
        invariant 0 <= i <= |tiles|
        invariant forall k :: 0 <= k < i && tiles[k].component == Lamp ==> tiles[k].isPowered
      {
        if tiles[i].component == Lamp && !tiles[i].isPowered {
          return false;
        }
        i := i + 1;
      }
      return |tiles| != 0;
    }

    /** Whether some tile carries a lamp. */
    method ContainsLamp() returns (r: bool)
      ensures r == CircuitModel.ContainsLamp(Cells())
    {
      var i := 0;
      while i < |tiles|
        invariant 0 <= i <= |tiles|
        invariant forall k :: 0 <= k < i ==> tiles[k].component != Lamp
      {
        if tiles[i].component == Lamp {
          return true;
        }
        i := i + 1;
      }
      return false;
    }

    /** Switches off every tile but the sources. */
    method Blackout()
      requires Valid()
      modifies tiles
      ensures Cells() == BlackedOut(old(Cells()))
    {
      var i := 0;
      while i < |tiles|
        invariant 0 <= i <= |tiles|
        invariant forall k :: 0 <= k < i ==> tiles[k].State() == WithPower(old(tiles[k].State()), false)
        invariant forall k :: i <= k < |tiles| ==> tiles[k].State() == old(tiles[k].State())
      {
        tiles[i].SetIsPowered(false);
        i := i + 1;
      }
    }

    /** `around` with the index of the tile at `q` appended, unless there is none or it is already there. */
    method AddTileAt(q: Position, around: seq<nat>) returns (r: seq<nat>)
      requires Valid() && Distinct(around)
      ensures forall j: nat :: j in r <==> j in around || (j < |tiles| && Cells()[j].position == q)
      ensures Distinct(r)
    {
      var at := IndexOfTileAt(q);
      forall j: nat | j < |tiles| && Cells()[j].position == q
        ensures at == Some(j)
      {
        IndexAtUnique(Cells(), j);
      }
      r := around;
      if at.Some? && at.value !in around {
        r := around + [at.value];
      }
    }

    /** The tiles at the positions that touch tile `k`, each once, in the order of the sides they touch. */
    method TilesAround(k: nat) returns (around: seq<nat>)
      requires Valid() && k < |tiles|
      ensures forall j: nat :: j in around <==> j < |tiles| && IsNeighbor(tiles[k].position, tiles[j].position, tiles[k].shape)
      ensures Distinct(around)
    {
      ghost var cs := Cells();
      var positions := NeighborPositions(tiles[k].position, tiles[k].shape);
      around := [];
      var m := 0;
      while m < |positions|
        invariant 0 <= m <= |positions|
        invariant forall j: nat :: j in around <==> j < |cs| && cs[j].position in positions[..m]
        invariant Distinct(around)
      {
        assert positions[..m + 1] == positions[..m] + [positions[m]];
        around := AddTileAt(positions[m], around);
        m := m + 1;
      }
      assert positions[..m] == positions && Cells() == cs;
    }

    /** Of the tiles `around`, those linked to tile `k`, in the same order. */
    method LinkedAmong(k: nat, around: seq<nat>) returns (res: seq<nat>)
      requires Valid() && k < |tiles|
      requires forall j: nat :: j in around ==> j < |tiles|
      requires Distinct(around)
      ensures forall j: nat :: j in res <==> j in around && IsLinkedTo(Cells()[k], Cells()[j])
      ensures Distinct(res)
    {
      ghost var cs := Cells();
      res := [];
      var m := 0;
      while m < |around|
        invariant 0 <= m <= |around|
        invariant forall j: nat :: j in res <==> j in around[..m] && j < |cs| && IsLinkedTo(cs[k], cs[j])
        invariant Distinct(res) && Cells() == cs
      {
        var j := around[m];
        assert j in around;
        assert around[..m + 1] == around[..m] + [j];
        if IsLinkedTo(tiles[k].State(), tiles[j].State()) {
          res := res + [j];
        }
        m := m + 1;
      }
      assert around[..m] == around;
    }

    /**
     * The tiles that power flows to from tile `k`, each once: the tiles
     * linked to it at its neighbouring positions and, for a hotspot, every
     * other hotspot.
     */
    method GetNeighbors(k: nat) returns (res: seq<nat>)
      requires Valid() && k < |tiles|
      ensures forall j :: j in res <==> j in Neighbors(Cells(), k)
      ensures Distinct(res)
    {
      ghost var cs := Cells();
      var around := TilesAround(k);
      assert Cells() == cs;
      res := LinkedAmong(k, around);
      assert Cells() == cs;
      forall j: nat | j < |cs|
        ensures j in res <==> IsLinkedTo(cs[k], cs[j])
      {
        if IsLinkedTo(cs[k], cs[j]) {
          LinkedTilesTouch(cs[k], cs[j]);
        }
      }
      if tiles[k].component == Hotspot {
        var hotspots := GetHotspots();
        assert Cells() == cs;
        res := AppendMissing(res, hotspots);
        res := RemoveFirst(res, k);
      }
      NotOwnNeighbor(cs[k].position, cs[k].shape);
    }

    /** Sets the power flag of tile `k` (a source ignores it). */
    method SetIsPoweredAt(k: nat, p: bool)
      requires Valid() && k < |tiles|
      modifies tiles[k]
      ensures Cells() == old(Cells())[k := WithPower(old(Cells())[k], p)]
    {
      tiles[k].SetIsPowered(p);
      assert forall j :: 0 <= j < |tiles| && j != k ==> tiles[j] != tiles[k];
    }

    /** Connects (`v`) or disconnects side `index` of tile `k`; reports whether the flag changed. */
    method SetSideAt(k: nat, index: nat, v: bool) returns (changed: bool)
      requires Valid() && k < |tiles| && index < tiles[k].border.Length
      modifies tiles[k].border
      ensures Valid()
      ensures Cells() == old(Cells())[k := WithSide(old(Cells())[k], index, v)]
      ensures changed <==> old(Cells())[k].border[index] != v
    {
      if v {
        changed := tiles[k].Connect(index);
      } else {
        changed := tiles[k].Disconnect(index);
      }
      assert forall j :: 0 <= j < |tiles| && j != k ==> tiles[j].border != tiles[k].border;
    }

    /** Gives tile `k` the component `c`. */
    method SetComponentAt(k: nat, c: Component)
      requires Valid() && k < |tiles|
      modifies tiles[k]
      ensures Valid()
      ensures Cells() == old(Cells())[k := WithComponent(old(Cells())[k], c)]
    {
      tiles[k].SetComponent(c);
      assert forall j :: 0 <= j < |tiles| && j != k ==> tiles[j] != tiles[k];
    }

    /** Empties tile `k`. */
    method ClearAt(k: nat)
      requires Valid() && k < |tiles|
      modifies tiles[k], tiles[k].border
      ensures Valid()
      ensures Cells() == old(Cells())[k := Cleared(old(Cells())[k])]
    {
      tiles[k].Clear();
      assert forall j :: 0 <= j < |tiles| && j != k ==> tiles[j] != tiles[k] && tiles[j].border != tiles[k].border;
    }

    /** Turns tile `k` one step. */
    method RotateAt(k: nat)
      requires Valid() && k < |tiles|
      modifies tiles[k].border
      ensures Valid()
      ensures Cells() == old(Cells())[k := Rotated(old(Cells())[k])]
    {
      tiles[k].Rotate();
      assert forall j :: 0 <= j < |tiles| && j != k ==> tiles[j].border != tiles[k].border;
    }

    /**
     * The body of the spreading loop: pushes, one after the other, every tile
     * of `neighs` that is off, is not a source and is not already waiting.
     */
    method PushNeighbors(neighs: seq<nat>, queue: seq<nat>) returns (r: seq<nat>)
      requires forall j: nat :: j in neighs ==> j < |tiles|
      ensures r == Pushed(Cells(), neighs, queue)
    {
      ghost var cs := Cells();
      r := queue;
      var m := 0;
      while m < |neighs|
        invariant 0 <= m <= |neighs|
        invariant Pushed(cs, neighs, queue) == Pushed(cs, neighs[m..], r)
      {
        var j := neighs[m];
        assert j in neighs && neighs[m..][1..] == neighs[m + 1..];
        if !tiles[j].isPowered && tiles[j].component != Source && j !in r {
          r := [j] + r;
        }
        m := m + 1;
      }
    }

    /**
     * One turn of the spreading loop: pops the head of the stack, switches it
     * on and pushes its waiting neighbours.
     */
    method ExploreNext(ghost c0: seq<TileState>, ghost done: set<nat>, queue: seq<nat>) returns (next: seq<nat>)
      requires Valid() && |c0| == |tiles| && queue != []
      requires Cells() == PoweredIn(c0, done)
      requires SpreadInvariant(c0, done, queue)
      modifies tiles
      ensures Valid() && |c0| == |tiles|
      ensures queue[0] < |c0| && queue[0] !in done
      ensures Cells() == PoweredIn(c0, done + {queue[0]})
      ensures SpreadInvariant(c0, done + {queue[0]}, next)
    {
      var cur := queue[0];
      assert cur in queue;
      SetIsPoweredAt(cur, true);
      PoweredInAddOne(c0, done, cur);
      var neighs := GetNeighbors(cur);
      NeighborsIgnorePower(c0, Cells(), cur);
      next := PushNeighbors(neighs, queue[1..]);
      PushedSpec(Cells(), neighs, queue[1..]);
      SpreadStep(c0, done, queue, next);
    }

    /**
     * Spreads power from the sources: a stack of tiles to explore starts with
     * the sources; each tile taken from it is switched on and pushes those of
     * its neighbours that are off, not sources and not already waiting.
     */
    method PropagateElectricity()
      requires Valid()
      modifies tiles
      ensures Cells() == Propagated(old(Cells()))
    {
      ghost var c0 := Cells();
      var queue: seq<nat> := GetSources();
      assert Cells() == c0;
      SpreadStart(c0);
      ghost var done: set<nat> := {};
      ghost var all := Below(|c0|);
      while queue != []
        invariant Valid() && |c0| == |tiles| && done <= all
        invariant Cells() == PoweredIn(c0, done)
        invariant SpreadInvariant(c0, done, queue)
        decreases all - done
      {
        var cur := queue[0];
        queue := ExploreNext(c0, done, queue);
        done := done + {cur};
      }
      SpreadEnd(c0, done);
    }
  
    /** Connects (`v`) or disconnects side `index` of the tile at `p`; reports whether the flag changed. */
    method SetSideOfTileAt(p: Position, index: nat, v: bool) returns (changed: bool)
      requires Valid() && AppliesAt(Cells(), p, SetSide(index, v))
      modifies Borders()
      ensures Valid()
      ensures Cells() == EditAt(old(Cells()), p, SetSide(index, v))
      ensures changed <==> Cells() != old(Cells())
    {
      ghost var cs := Cells();
      var at := IndexOfTileAt(p);
      assert Cells() == cs;
      if at.None? {
        return false;
      }
      changed := SetSideAt(at.value, index, v);
      SetSideUndone(cs, p, index, v);
    }

    /** Connects side `index` of the tile at `p`; false when there is no tile there or the side was already connected. */
    method ConnectSideOfTileAt(p: Position, index: nat) returns (changed: bool)
      requires Valid() && AppliesAt(Cells(), p, SetSide(index, true))
      modifies Borders()
      ensures Valid()
      ensures Cells() == EditAt(old(Cells()), p, SetSide(index, true))
      ensures changed <==> Cells() != old(Cells())
    {
      changed := SetSideOfTileAt(p, index, true);
    }

    /** Disconnects side `index` of the tile at `p`; false when there is no tile there or the side was not connected. */
    method DisconnectSideOfTileAt(p: Position, index: nat) returns (changed: bool)
      requires Valid() && AppliesAt(Cells(), p, SetSide(index, false))
      modifies Borders()
      ensures Valid()
      ensures Cells() == EditAt(old(Cells()), p, SetSide(index, false))
      ensures changed <==> Cells() != old(Cells())
    {
      changed := SetSideOfTileAt(p, index, false);
    }

    /** Gives the tile at `p` the component `c`; false when there is no tile there. */
    method SetTileComponentTo(p: Position, c: Component) returns (changed: bool)
      requires Valid()
      modifies tiles
      ensures Valid()
      ensures Cells() == EditAt(old(Cells()), p, SetComponent(c))
      ensures changed <==> Occupied(old(Cells()), p)
    {
      ghost var cs := Cells();
      var at := IndexOfTileAt(p);
      assert Cells() == cs;
      if at.None? {
        return false;
      }
      SetComponentAt(at.value, c);
      return true;
    }

    /** Empties the tile at `p`; false when there is no tile there. */
    method ClearTileAt(p: Position) returns (cleared: bool)
      requires Valid()
      modifies tiles, Borders()
      ensures Valid()
      ensures Cells() == EditAt(old(Cells()), p, CircuitEdits.Clear)
      ensures cleared <==> Occupied(old(Cells()), p)
    {
      ghost var cs := Cells();
      var at := IndexOfTileAt(p);
      assert Cells() == cs;
      if at.None? {
        return false;
      }
      ClearAt(at.value);
      return true;
    }

    /** Turns the tile at `p` one step; false when there is none or it is a source. */
    method RotateTileAt(p: Position) returns (rotated: bool)
      requires Valid()
      modifies Borders()
      ensures Valid()
      ensures Cells() == EditAt(old(Cells()), p, Rotate)
      ensures rotated <==> Occupied(old(Cells()), p) && CanRotate(old(Cells())[IndexAt(old(Cells()), p).value].component)
    {
      ghost var cs := Cells();
      var i := 0;
      while i < |tiles|
        invariant 0 <= i <= |tiles|
        invariant forall k :: 0 <= k < i ==> !(tiles[k].position == p && CanRotate(tiles[k].component))
      {
        if tiles[i].position == p && CanRotate(tiles[i].component) {
          IndexAtUnique(cs, i);
          RotateAt(i);
          return true;
        }
        i := i + 1;
      }
      if IndexAt(cs, p).Some? {
        var k := IndexAt(cs, p).value;
        assert cs[k := Rotated(cs[k])] == cs;
      }
      return false;
    }

    /** Empties every tile. */
    method Clear()
      requires Valid()
      modifies tiles, Borders()
      ensures Valid()
      ensures Cells() == ClearedAll(old(Cells()))
    {
      var i := 0;
      while i < |tiles|
        invariant 0 <= i <= |tiles|
        invariant forall k :: 0 <= k < i ==> tiles[k].State() == Cleared(old(tiles[k].State()))
        invariant forall k :: i <= k < |tiles| ==> tiles[k].State() == old(tiles[k].State())
      {
        ClearAt(i);
        i := i + 1;
      }
    }

    /**
     * Turns every tile that can turn `turns[k]` times; the numbers stand for
     * the random draws of the game, between one and one less than the number
     * of sides.
     */
    method RandomRotations(turns: seq<nat>)
      requires Valid() && ValidTurns(Cells(), turns)
      modifies Borders()
      ensures Valid()
      ensures Cells() == Scrambled(old(Cells()), turns)
    {
      ghost var cs := Cells();
      ghost var goal := Scrambled(cs, turns);
      var i := 0;
      while i < |tiles|
        invariant 0 <= i <= |tiles| == |cs|
        invariant Valid() && Cells() == goal[..i] + cs[i..]
      {
        SpliceStep(goal, cs, i);
        if CanRotate(tiles[i].component) {
          TurnTile(i, turns[i]);
        }
        i := i + 1;
      }
      assert goal[..i] + cs[i..] == goal;
    }

    /** Turns tile `k` `m` times, one step at a time. */
    method TurnTile(k: nat, m: nat)
      requires Valid() && k < |tiles|
      modifies tiles[k].border
      ensures Valid()
      ensures Cells() == old(Cells())[k := old(Cells())[k].(border := RotatedTimes(old(Cells())[k].border, if CanRotate(old(Cells())[k].component) then m else 0))]
    {
      ghost var c0 := Cells();
      ghost var t0 := c0[k];
      var n := 0;
      while n < m
        invariant 0 <= n <= m
        invariant Valid() && Cells() == c0[k := t0.(border := RotatedTimes(t0.border, if CanRotate(t0.component) then n else 0))]
      {
        RotateAt(k);
        n := n + 1;
      }
    }

    /** `addLine` (`add`) or `removeLine` (`!add`); the error when the circuit mixes shapes, and then nothing changes. */
    method AddOrRemoveLine(add: bool) returns (error: Option<CircuitError>)
      requires Valid()
      modifies this
      ensures Valid()
      ensures ResizedLines(old(Cells()), add) == if error.None? then Success(Cells()) else Failure(error.value)
    {
      ghost var c0 := Cells();
      var d := Dimension();
      assert Cells() == c0 && d == Extent(c0);
      var h, w := d.height, d.width;
      var squared := AreAllSquaredTiles();
      assert Cells() == c0 && squared == AllOfShape(c0, Square);
      if squared.Failure? {
        assert ResizedLines(c0, add) == Failure(squared.error);
        return Some(squared.error);
      }
      var shape := if squared.value then Square else Hexagon;
      if !add && h == 1 {
        assert ResizedLines(c0, add) == Success(c0);
        return None;
      }
      if !add && w > h && h == 2 && shape == Hexagon {
        assert ResizedLines(c0, add) == Success(c0);
        return None;
      }
      ResizeLines(add, squared.value, shape, d);
      return None;
    }

    /** `addOrRemoveLine` past its guards: the line targets added or removed. */
    method ResizeLines(add: bool, squared: bool, shape: Shape, d: Size)
      requires Valid() && d == Extent(Cells())
      requires AllOfShape(Cells(), Square) == Success(squared) && shape == if squared then Square else Hexagon
      requires !(!add && d.height == 1) && !(!add && d.width > d.height && d.height == 2 && shape == Hexagon)
      modifies this
      ensures Valid() && ResizedLines(old(Cells()), add) == Success(Cells())
    {
      LinesResized(Cells(), add, d, squared, shape);
      LineSweep(add, shape, d.height, d.width);
    }

    /** The loop of `addOrRemoveLine`: one step per column of a grid `w` wide and `h` high. */
    method LineSweep(add: bool, shape: Shape, h: nat, w: nat)
      requires Valid() && (w > 0 ==> h >= (if add then 1 else 2))
      modifies this
      ensures Valid()
      ensures add ==> Cells() == AddEmptyTiles(old(Cells()), shape, LineTargetsFrom(Size(w, h), shape, true, 0))
      ensures !add ==> Cells() == RemoveTiles(old(Cells()), LineTargetsFrom(Size(w, h), shape, false, 0))
    {
      ghost var c0 := Cells();
      ghost var d := Size(w, h);
      ghost var goal := if add then AddEmptyTiles(c0, shape, LineTargetsFrom(d, shape, true, 0))
        else RemoveTiles(c0, LineTargetsFrom(d, shape, false, 0));
      var j := 0;
      while j < w
        invariant 0 <= j <= w && Valid()
        invariant add ==> AddEmptyTiles(Cells(), shape, LineTargetsFrom(d, shape, true, j)) == goal
        invariant !add ==> RemoveTiles(Cells(), LineTargetsFrom(d, shape, false, j)) == goal
      {
        ghost var rest := LineTargetsFrom(d, shape, add, j + 1);
        LineTargetsFromStep(d, shape, add, j);
        LineStep(add, shape, h, j, rest);
        j := j + 1;
      }
    }

    /** One pass of the loop of `addOrRemoveLine`: the tile of column `j` added or removed. */
    method LineStep(add: bool, shape: Shape, h: nat, j: nat, ghost rest: seq<Position>)
      requires Valid() && h >= (if add then 1 else 2)
      modifies this
      ensures Valid()
      ensures add ==> AddEmptyTiles(Cells(), shape, rest) == AddEmptyTiles(old(Cells()), shape, [LineTarget(h, shape, add, j)] + rest)
      ensures !add ==> RemoveTiles(Cells(), rest) == RemoveTiles(old(Cells()), [LineTarget(h, shape, add, j)] + rest)
    {
      var target: Position;
      if shape == Hexagon && j % 2 == 1 {
        target := if add then Position(h - 1, j) else Position(h - 2, j);
      } else {
        target := if add then Position(h, j) else Position(h - 1, j);
      }
      Step(add, shape, target, rest);
    }

    /**
     * Adds a new empty tile of shape `s` at `target` (`add`) or removes the
     * tile at `target` (`!add`): one step of a resize, whose remaining steps
     * `rest` then lead to the same circuit as before.
     */
    method Step(add: bool, s: Shape, target: Position, ghost rest: seq<Position>)
      requires Valid()
      modifies this
      ensures Valid()
      ensures add ==> AddEmptyTiles(Cells(), s, rest) == AddEmptyTiles(old(Cells()), s, [target] + rest)
      ensures !add ==> RemoveTiles(Cells(), rest) == RemoveTiles(old(Cells()), [target] + rest)
    {
      assert ([target] + rest)[1..] == rest;
      if add {
        AddEmptyTileAt(s, target);
      } else {
        var _ := RemoveTile(target);
      }
    }

    /** `addTile` of a new empty tile of shape `s` at `target`. */
    method AddEmptyTileAt(s: Shape, target: Position)
      requires Valid()
      modifies this
      ensures Valid()
      ensures Cells() == WithEmptyTileAt(old(Cells()), s, target)
    {
      var t := new Tile.Empty(s, target);
      assert t.State() == NewTile(s, target, Components.Empty);
      var _ := AddTile(t);
    }

    method AddLine() returns (error: Option<CircuitError>)
      requires Valid()
      modifies this
      ensures Valid()
      ensures ResizedLines(old(Cells()), true) == if error.None? then Success(Cells()) else Failure(error.value)
    {
      error := AddOrRemoveLine(true);
    }

    method RemoveLine() returns (error: Option<CircuitError>)
      requires Valid()
      modifies this
      ensures Valid()
      ensures ResizedLines(old(Cells()), false) == if error.None? then Success(Cells()) else Failure(error.value)
    {
      error := AddOrRemoveLine(false);
    }

    /** `addColumn` (`add`) or `removeColumn` (`!add`); the error when the circuit mixes shapes, and then nothing changes. */
    method AddOrRemoveColumn(add: bool) returns (error: Option<CircuitError>)
      requires Valid()
      modifies this
      ensures Valid()
      ensures ResizedColumns(old(Cells()), add) == if error.None? then Success(Cells()) else Failure(error.value)
    {
      ghost var c0 := Cells();
      var hexagonal := AreAllHexagonalTiles();
      assert Cells() == c0 && hexagonal == AllOfShape(c0, Hexagon);
      if hexagonal.Failure? {
        assert ResizedColumns(c0, add) == Failure(hexagonal.error);
        return Some(hexagonal.error);
      }
      var shape := if hexagonal.value then Hexagon else Square;
      var d := Dimension();
      assert Cells() == c0 && d == Extent(c0);
      var h, w := d.height, d.width;
      if !add && w == 1 {
        assert ResizedColumns(c0, add) == Success(c0);
        return None;
      }
      if add && h == 1 && shape == Hexagon {
        assert ResizedColumns(c0, add) == Success(c0);
        return None;
      }
      ResizeColumns(add, hexagonal.value, shape, d);
      return None;
    }

    /** `addOrRemoveColumn` past its guards: the column targets added or removed. */
    method ResizeColumns(add: bool, hexagonal: bool, shape: Shape, d: Size)
      requires Valid() && d == Extent(Cells())
      requires AllOfShape(Cells(), Hexagon) == Success(hexagonal) && shape == if hexagonal then Hexagon else Square
      requires !(!add && d.width == 1) && !(add && d.height == 1 && shape == Hexagon)
      modifies this
      ensures Valid() && ResizedColumns(old(Cells()), add) == Success(Cells())
    {
      ColumnsResized(Cells(), add, d, hexagonal, shape);
      ColumnSweep(add, shape, d);
    }

    /** The loop of `addOrRemoveColumn`: one step per line of a grid of size `d`. */
    method ColumnSweep(add: bool, shape: Shape, d: Size)
      requires Valid() && (!add && d.height > 0 ==> d.width >= 1)
      modifies this
      ensures Valid()
      ensures add ==> Cells() == AddEmptyTiles(old(Cells()), shape, ColumnTargetsFrom(d, shape, true, 0))
      ensures !add ==> Cells() == RemoveTiles(old(Cells()), ColumnTargetsFrom(d, shape, false, 0))
    {
      ghost var c0 := Cells();
      ghost var goal := if add then AddEmptyTiles(c0, shape, ColumnTargetsFrom(d, shape, true, 0))
        else RemoveTiles(c0, ColumnTargetsFrom(d, shape, false, 0));
      var h, w := d.height, d.width;
      var i := 0;
      while i < h
        invariant 0 <= i <= h && Valid()
        invariant add ==> AddEmptyTiles(Cells(), shape, ColumnTargetsFrom(d, shape, true, i)) == goal
        invariant !add ==> RemoveTiles(Cells(), ColumnTargetsFrom(d, shape, false, i)) == goal
      {
        ghost var rest := ColumnTargetsFrom(d, shape, add, i + 1);
        assert ColumnTargetsFrom(d, shape, add, i) == ColumnTarget(d, shape, add, i) + rest;
        ColumnStep(add, shape, d, i, rest);
        i := i + 1;
      }
    }

    /** One pass of the loop of `addOrRemoveColumn`: the tile of line `i` added or removed. */
    method ColumnStep(add: bool, shape: Shape, d: Size, i: nat, ghost rest: seq<Position>)
      requires Valid() && i < d.height && (!add ==> d.width >= 1)
      modifies this
      ensures Valid()
      ensures add ==> AddEmptyTiles(Cells(), shape, rest) == AddEmptyTiles(old(Cells()), shape, ColumnTarget(d, shape, add, i) + rest)
      ensures !add ==> RemoveTiles(Cells(), rest) == RemoveTiles(old(Cells()), ColumnTarget(d, shape, add, i) + rest)
    {
      var h, w := d.height, d.width;
      if add {
        if shape == Hexagon && i == h - 1 && w % 2 == 1 {
          assert ColumnTarget(d, shape, add, i) + rest == rest;
          return;
        }
        assert ColumnTarget(d, shape, add, i) == [Position(i, w)];
        Step(true, shape, Position(i, w), rest);
      } else {
        assert ColumnTarget(d, shape, add, i) == [Position(i, w - 1)];
        Step(false, shape, Position(i, w - 1), rest);
      }
    }

    method AddColumn() returns (error: Option<CircuitError>)
      requires Valid()
      modifies this
      ensures Valid()
      ensures ResizedColumns(old(Cells()), true) == if error.None? then Success(Cells()) else Failure(error.value)
    {
      error := AddOrRemoveColumn(true);
    }

    method RemoveColumn() returns (error: Option<CircuitError>)
      requires Valid()
      modifies this
      ensures Valid()
      ensures ResizedColumns(old(Cells()), false) == if error.None? then Success(Cells()) else Failure(error.value)
    {
      error := AddOrRemoveColumn(false);
    }
  }
}
