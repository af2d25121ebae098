/**
 * A level: an identifier and the circuit the player solves or the editor
 * changes. Loading a level from its configuration rebuilds the circuit tile
 * by tile and, for a hexagonal grid, trims the bottom cell of every odd
 * column, which is half a cell lower and one cell shorter than the others
 * but which the level file writes and reads back like any other cell.
 */
module Levels {
  import opened Wrappers
  import opened Text
  import opened TileShapes
  import opened Components
  import opened Positions
  import opened TileStates
  import opened CircuitModel
  import opened CircuitEdits
  import opened CircuitResize
  import opened Circuits
  import opened LevelCodec
  import opened LevelConfigs
  import opened LevelRoundTrip

  /** Why `Level.from` refuses its arguments. */
  datatype LevelError = NegativeId | NullCircuit

  /** The positions `(h - 1, j)`, `(h - 1, j + 2)`, … of the last line with a column below `w`. */
  function OddBottomsFrom(h: nat, w: nat, j: nat): (ps: seq<Position>)
    requires h >= 1
    decreases w - j
  {
    if j >= w then [] else [Position(h - 1, j)] + OddBottomsFrom(h, w, j + 2)
  }

  /** The bottom cells of the odd columns of a grid of dimension `d`, left to right. */
  function OddBottoms(d: Size): seq<Position>
    requires d.height >= 1
  {
    OddBottomsFrom(d.height, d.width, 1)
  }

  /** Whether `p` is the bottom cell of an odd column of a grid of dimension `d`. */
  predicate IsOddBottom(d: Size, p: Position) {
    d.height >= 1 && p.line == d.height - 1 && p.column % 2 == 1 && p.column < d.width
  }

  /** The listed positions are exactly the bottom cells of the odd columns from `j` on. */
  lemma {:induction false} OddBottomsFromSpec(h: nat, w: nat, j: nat)
    requires h >= 1 && j % 2 == 1
    ensures forall p :: p in OddBottomsFrom(h, w, j) <==>
      p.line == h - 1 && p.column % 2 == 1 && j <= p.column < w
    decreases w - j
  {
    if j < w {
      OddBottomsFromSpec(h, w, j + 2);
      forall p ensures p in OddBottomsFrom(h, w, j) <==> p.line == h - 1 && p.column % 2 == 1 && j <= p.column < w {
        if p.line == h - 1 && p.column % 2 == 1 && j <= p.column < w && p.column != j {
          assert j + 2 <= p.column;
        }
      }
    }
  }

  lemma OddBottomsSpec(d: Size)
    requires d.height >= 1
    ensures forall p :: p in OddBottoms(d) <==> IsOddBottom(d, p)
  {
    OddBottomsFromSpec(d.height, d.width, 1);
  }

  /** Whether the circuit is hexagonal: not empty, and every tile a hexagon. */
  predicate Hexagonal(cs: seq<TileState>) {
    cs != [] && forall k :: 0 <= k < |cs| ==> cs[k].shape == Hexagon
  }

  /**
   * What `fromLevelConfig` does to the circuit it has built: when it is
   * hexagonal, removes the bottom cells of the odd columns; the error of
   * `areAllHexagonalTiles` when it mixes shapes.
   */
  function Trimmed(cs: seq<TileState>): (r: Result<seq<TileState>, CircuitError>)
  {
    match AllOfShape(cs, Hexagon)
    case Failure(e) => Failure(e)
    case Success(hex) =>
      if hex then
        assert cs != [];
        Success(RemoveTiles(cs, OddBottoms(Extent(cs))))
      else
        Success(cs)
  }

  /** `fromLevelConfig` on the tiles `ts`: the circuit `addTile` builds from them, trimmed. */
  function Loaded(ts: seq<TileState>): (r: Result<seq<TileState>, CircuitError>)
  {
    Trimmed(Collected(ts))
  }

  /**
   * Loading fails exactly when the gathered tiles mix shapes. Otherwise it
   * gives a valid circuit that holds the gathered tiles but, when they are
   * hexagonal, those at the bottom of an odd column.
   */
  lemma LoadedSpec(ts: seq<TileState>)
    requires forall k :: 0 <= k < |ts| ==> WellFormed(ts[k])
    ensures var cs := Collected(ts);
      Loaded(ts).Failure? <==> exists a, b :: 0 <= a < |cs| && 0 <= b < |cs| && cs[a].shape != cs[b].shape
    ensures Loaded(ts).Success? ==>
      var cs := Collected(ts);
      && Valid(Loaded(ts).value)
      && forall t :: t in Loaded(ts).value <==>
           t in cs && !(Hexagonal(cs) && IsOddBottom(Extent(cs), t.position))
  {
    CollectedIsValid(ts);
    TrimmedSpec(Collected(ts));
    assert Loaded(ts) == Trimmed(Collected(ts));
  }

  /** The circuit gathered from well formed tiles is valid. */
  lemma CollectedIsValid(ts: seq<TileState>)
    requires forall k :: 0 <= k < |ts| ==> WellFormed(ts[k])
    ensures Valid(Collected(ts))
  {
    CollectedKeepsFirst(ts);
  }

  /** `Trimmed` fails exactly on mixed shapes, and otherwise drops the odd bottoms of a hexagonal circuit alone. */
  lemma TrimmedSpec(cs: seq<TileState>)
    requires Valid(cs)
    ensures Trimmed(cs).Failure? <==> exists a, b :: 0 <= a < |cs| && 0 <= b < |cs| && cs[a].shape != cs[b].shape
    ensures Trimmed(cs).Success? ==>
      && Valid(Trimmed(cs).value)
      && forall t :: t in Trimmed(cs).value <==> t in cs && !(Hexagonal(cs) && IsOddBottom(Extent(cs), t.position))
  {
    if AllOfShape(cs, Hexagon) == Success(true) {
      WithoutOddBottoms(cs);
    }
  }

  /** Removing the bottom cells of the odd columns keeps the circuit valid and every other tile. */
  lemma WithoutOddBottoms(cs: seq<TileState>)
    requires Valid(cs) && cs != []
    ensures var d := Extent(cs);
      && Valid(RemoveTiles(cs, OddBottoms(d)))
      && forall t :: t in RemoveTiles(cs, OddBottoms(d)) <==> t in cs && !IsOddBottom(d, t.position)
  {
    var d := Extent(cs);
    OddBottomsSpec(d);
    WithoutPositions(cs, OddBottoms(d), d);
  }

  lemma WithoutPositions(cs: seq<TileState>, ps: seq<Position>, d: Size)
    requires Valid(cs) && forall p :: p in ps <==> IsOddBottom(d, p)
    ensures Valid(RemoveTiles(cs, ps))
    ensures forall t :: t in RemoveTiles(cs, ps) <==> t in cs && !IsOddBottom(d, t.position)
  {
    RemoveTilesSpec(cs, ps);
    assert !IsOddBottom(d, Origin);
  }

  /** In a valid circuit, a position is taken exactly when some tile is there. */
  lemma OccupiedIffPresent(cs: seq<TileState>, p: Position)
    ensures Occupied(cs, p) <==> exists t :: t in cs && t.position == p
  {
    if Occupied(cs, p) {
      assert cs[IndexAt(cs, p).value] in cs;
    }
  }

  /**
   * Saving a hexagonal circuit, reading the file back and loading the level
   * gives a valid circuit that fills the grid but for the bottom cells of
   * the odd columns: every tile saved elsewhere comes back with its power
   * flag reset, and every hole elsewhere comes back as an empty tile.
   */
  lemma LoadReadWritten(cs: seq<TileState>, path: string, id: int, p: Position)
    requires ShapedAs(cs, Hexagon) && cs != []
    requires Extent(cs).height <= IntMax && Extent(cs).width <= IntMax
    requires IdFromFileName(path) == Some(id)
    ensures
      var r := ReadLevel(Some(Lines(FileContent(cs, Hexagon))), path);
      var d := Extent(cs);
      && r.Success? && r.value.id == id && Loaded(r.value.tiles).Success?
      && var l := Loaded(r.value.tiles).value;
      && Valid(l)
      && (Occupied(l, p) <==> p.line < d.height && p.column < d.width && !IsOddBottom(d, p))
      && (Occupied(l, p) && Occupied(cs, p) ==>
            var t := cs[IndexAt(cs, p).value];
            l[IndexAt(l, p).value] == t.(powered := t.component == Source))
      && (Occupied(l, p) && !Occupied(cs, p) ==> l[IndexAt(l, p).value] == NewTile(Hexagon, p, Empty))
  {
    ReadWritten(cs, Hexagon, path, id);
    LoadWrittenGrid(cs, p);
  }

  /** `LoadReadWritten` for the grid the reader builds, before the file is involved. */
  lemma LoadWrittenGrid(cs: seq<TileState>, p: Position)
    requires ShapedAs(cs, Hexagon) && cs != []
    ensures
      var d := Extent(cs);
      var g := ReloadedGrid(cs, Hexagon, d.height, d.width);
      && Loaded(g).Success?
      && var l := Loaded(g).value;
      && Valid(l)
      && (Occupied(l, p) <==> p.line < d.height && p.column < d.width && !IsOddBottom(d, p))
      && (Occupied(l, p) && Occupied(cs, p) ==>
            var t := cs[IndexAt(cs, p).value];
            l[IndexAt(l, p).value] == t.(powered := t.component == Source))
      && (Occupied(l, p) && !Occupied(cs, p) ==> l[IndexAt(l, p).value] == NewTile(Hexagon, p, Empty))
  {
    var d := Extent(cs);
    var g := ReloadedGrid(cs, Hexagon, d.height, d.width);
    ReloadedGridTiles(cs, Hexagon, d.height, d.width);
    ReloadedGridDistinct(cs, Hexagon, d.height, d.width);
    ReloadedGridCovers(cs, Hexagon, d.height, d.width);
    ReloadedGridShape(cs, Hexagon, d.height, d.width);
    LoadFullGrid(g, d, p);
    ReloadedIsWritten(cs, Hexagon, p);
    if Occupied(g, p) {
      var k := IndexAt(g, p).value;
      assert g[k] == Reloaded(cs, Hexagon, p);
    }
  }

  /** Every tile read back from a grid of shape `s` has shape `s`. */
  lemma ReloadedGridShape(cs: seq<TileState>, s: Shape, h: nat, w: nat)
    requires ShapedAs(cs, s)
    ensures forall k :: 0 <= k < |ReloadedGrid(cs, s, h, w)| ==> ReloadedGrid(cs, s, h, w)[k].shape == s
  {
    var g := ReloadedGrid(cs, s, h, w);
    ReloadedGridTiles(cs, s, h, w);
    forall k | 0 <= k < |g| ensures g[k].shape == s {
      ReloadedIsWritten(cs, s, g[k].position);
    }
  }

  /**
   * Loading a hexagonal circuit that fills a grid of dimension `d` removes
   * exactly the bottom cells of the odd columns and keeps every other tile.
   */
  lemma LoadFullGrid(g: seq<TileState>, d: Size, p: Position)
    requires d.height >= 1 && d.width >= 1
    requires forall k :: 0 <= k < |g| ==>
      WellFormed(g[k]) && g[k].shape == Hexagon && g[k].position.line < d.height && g[k].position.column < d.width
    requires forall a, b :: 0 <= a < b < |g| ==> g[a].position != g[b].position
    requires forall i, j :: 0 <= i < d.height && 0 <= j < d.width ==> Position(i, j) in PositionsOf(g)
    ensures Loaded(g).Success?
    ensures var l := Loaded(g).value;
      && Valid(l)
      && (Occupied(l, p) <==> p.line < d.height && p.column < d.width && !IsOddBottom(d, p))
      && (Occupied(l, p) ==> Occupied(g, p) && l[IndexAt(l, p).value] == g[IndexAt(g, p).value])
  {
    LoadedGrid(g, d);
    var l := RemoveTiles(g, OddBottoms(d));
    KeptAt(g, l, d, p);
    FullGridOccupied(g, d, p);
  }

  /** A circuit filling a grid of dimension `d` and nothing else has a tile exactly at the positions of the grid. */
  lemma FullGridOccupied(g: seq<TileState>, d: Size, p: Position)
    requires forall k :: 0 <= k < |g| ==> g[k].position.line < d.height && g[k].position.column < d.width
    requires forall i, j :: 0 <= i < d.height && 0 <= j < d.width ==> Position(i, j) in PositionsOf(g)
    ensures Occupied(g, p) <==> p.line < d.height && p.column < d.width
  {
    if p.line < d.height && p.column < d.width {
      assert Position(p.line, p.column) in PositionsOf(g);
      var k :| 0 <= k < |g| && PositionsOf(g)[k] == p;
    }
  }

  /** A hexagonal circuit filling a grid of dimension `d` loads as itself without the bottom cells of the odd columns. */
  lemma LoadedGrid(g: seq<TileState>, d: Size)
    requires d.height >= 1 && d.width >= 1
    requires forall k :: 0 <= k < |g| ==>
      WellFormed(g[k]) && g[k].shape == Hexagon && g[k].position.line < d.height && g[k].position.column < d.width
    requires forall a, b :: 0 <= a < b < |g| ==> g[a].position != g[b].position
    requires forall i, j :: 0 <= i < d.height && 0 <= j < d.width ==> Position(i, j) in PositionsOf(g)
    ensures Valid(g) && Loaded(g) == Success(RemoveTiles(g, OddBottoms(d)))
    ensures Valid(RemoveTiles(g, OddBottoms(d)))
    ensures forall t :: t in RemoveTiles(g, OddBottoms(d)) <==> t in g && !IsOddBottom(d, t.position)
  {
    GridExtent(g, d);
    LoadedHexagonal(g);
    WithoutOddBottoms(g);
  }

  /** Where `l` keeps the tiles of `g` but those at the bottom of odd columns, it keeps the tile at `p` unless `p` is one of them. */
  lemma KeptAt(g: seq<TileState>, l: seq<TileState>, d: Size, p: Position)
    requires Valid(g) && Valid(l)
    requires forall t :: t in l <==> t in g && !IsOddBottom(d, t.position)
    ensures Occupied(l, p) <==> Occupied(g, p) && !IsOddBottom(d, p)
    ensures Occupied(l, p) ==> l[IndexAt(l, p).value] == g[IndexAt(g, p).value]
  {
    OccupiedIffPresent(l, p);
    OccupiedIffPresent(g, p);
    if Occupied(l, p) {
      var t := l[IndexAt(l, p).value];
      assert t in l && t in g;
      var k :| 0 <= k < |g| && g[k] == t;
      IndexAtUnique(g, k);
    }
  }

  /** A valid hexagonal circuit loads as itself without the bottom cells of its odd columns. */
  lemma LoadedHexagonal(cs: seq<TileState>)
    requires Valid(cs) && Hexagonal(cs)
    ensures Loaded(cs) == Success(RemoveTiles(cs, OddBottoms(Extent(cs))))
  {
    CollectedOfValid(cs);
  }

  /** A grid that fills every position of `d` and no other has dimension `d`. */
  lemma GridExtent(g: seq<TileState>, d: Size)
    requires d.height >= 1 && d.width >= 1
    requires forall k :: 0 <= k < |g| ==> g[k].position.line < d.height && g[k].position.column < d.width
    requires forall i, j :: 0 <= i < d.height && 0 <= j < d.width ==> Position(i, j) in PositionsOf(g)
    ensures g != [] && Extent(g) == d
  {
    assert Position(d.height - 1, 0) in PositionsOf(g);
    assert Position(0, d.width - 1) in PositionsOf(g);
    var a :| 0 <= a < |g| && PositionsOf(g)[a] == Position(d.height - 1, 0);
    var b :| 0 <= b < |g| && PositionsOf(g)[b] == Position(0, d.width - 1);
    ExtentIs(g, d);
  }

  /** What `Level.save` writes: each file path with its text. */
  datatype SavedFile = SavedFile(path: string, content: string)

  /** The shape `fromLevel` gives a configuration: that of the first tile, square when there is none. */
  function ConfigShape(cs: seq<TileState>): Shape {
    if cs == [] then Square else cs[0].shape
  }

  class Level {
    const id: int
    const circuit: Circuit

    constructor Make(id: int, circuit: Circuit)
      ensures this.id == id && this.circuit == circuit
    {
      this.id := id;
      this.circuit := circuit;
    }

    /** `Level.from`: refuses a negative identifier, then a missing circuit. */
    static method From(id: int, circuit: Circuit?) returns (r: Result<Level, LevelError>)
      ensures id < 0 ==> r == Failure(NegativeId)
      ensures id >= 0 && circuit == null ==> r == Failure(NullCircuit)
      ensures id >= 0 && circuit != null ==>
        r.Success? && fresh(r.value) && r.value.id == id && r.value.circuit == circuit
    {
      if id < 0 {
        return Failure(NegativeId);
      } else if circuit == null {
        return Failure(NullCircuit);
      }
      var level := new Level.Make(id, circuit);
      return Success(level);
    }

    /**
     * `Level.fromLevelConfig`: a new circuit gets every tile of the
     * configuration with `addTile`; when all of them are hexagonal, the tile
     * at the bottom of each odd column is removed. Mixed shapes are the error
     * of `areAllHexagonalTiles`.
     */
    static method FromLevelConfig(lc: LevelConfig) returns (r: Result<Level, CircuitError>)
      requires lc.Valid()
      ensures Loaded(old(lc.Cells())).Failure? ==> r == Failure(Loaded(old(lc.Cells())).error)
      ensures Loaded(old(lc.Cells())).Success? ==>
        && r.Success? && fresh(r.value) && fresh(r.value.circuit)
        && r.value.id == lc.id && r.value.circuit.Valid()
        && r.value.circuit.Cells() == Loaded(old(lc.Cells())).value
    {
      ghost var ts := lc.Cells();
      var c := CircuitOf(lc.tiles);
      assert StatesOf(lc.tiles) == ts;
      ghost var cs := c.Cells();
      assert cs == Collected(ts);
      var error := Trim(c);
      assert Loaded(ts) == Trimmed(cs);
      if error.Some? {
        return Failure(error.value);
      }
      ghost var loaded := c.Cells();
      var level := new Level.Make(lc.id, c);
      assert c.Cells() == loaded;
      return Success(level);
    }

    /**
     * The end of `fromLevelConfig`, on the circuit `c` it has built: the
     * error when `c` mixes shapes, and then `c` is unchanged.
     */
    static method Trim(c: Circuit) returns (error: Option<CircuitError>)
      requires c.Valid()
      modifies c
      ensures c.Valid()
      ensures Trimmed(old(c.Cells())) == if error.None? then Success(c.Cells()) else Failure(error.value)
    {
      ghost var cs := c.Cells();
      var hexagonal := c.AreAllHexagonalTiles();
      assert c.Cells() == cs;
      if hexagonal.Failure? {
        return Some(hexagonal.error);
      }
      if hexagonal.value {
        var d := c.Dimension();
        assert c.Cells() == cs;
        assert d == Extent(cs) && d.height >= 1;
        TrimOddBottoms(c, d);
      }
      return None;
    }

    /** The loop of `fromLevelConfig` that removes the tile at the bottom of each odd column. */
    static method TrimOddBottoms(c: Circuit, d: Size)
      requires c.Valid() && d.height >= 1
      modifies c
      ensures c.Valid() && c.Cells() == RemoveTiles(old(c.Cells()), OddBottoms(d))
    {
      ghost var cs := c.Cells();
      var j := 1;
      while j < d.width
        invariant j % 2 == 1 && c.Valid()
        invariant RemoveTiles(c.Cells(), OddBottomsFrom(d.height, d.width, j)) == RemoveTiles(cs, OddBottoms(d))
        decreases d.width - j
      {
        var _ := c.RemoveTile(Position(d.height - 1, j));
        j := j + 2;
      }
    }

    /** `isFinished`: whether every lamp of the circuit is on. */
    method IsFinished() returns (finished: bool)
      ensures finished == AllLampsPoweredOn(circuit.Cells())
    {
      finished := circuit.AllLampsArePoweredOn();
    }

    /** `rotateTileAt`: the circuit's answer, and the circuit's turn of the tile at `p`. */
    method RotateTileAt(p: Position) returns (rotated: bool)
      requires circuit.Valid()
      modifies circuit.Borders()
      ensures circuit.Valid()
      ensures circuit.Cells() == EditAt(old(circuit.Cells()), p, Rotate)
      ensures rotated <==> Occupied(old(circuit.Cells()), p) && CanRotate(old(circuit.Cells())[IndexAt(old(circuit.Cells()), p).value].component)
    {
      rotated := circuit.RotateTileAt(p);
    }

    /** `connectSideOfTileAt`: the circuit's answer, and side `index` of the tile at `p` connected. */
    method ConnectSideOfTileAt(p: Position, index: nat) returns (changed: bool)
      requires circuit.Valid() && AppliesAt(circuit.Cells(), p, SetSide(index, true))
      modifies circuit.Borders()
      ensures circuit.Valid()
      ensures circuit.Cells() == EditAt(old(circuit.Cells()), p, SetSide(index, true))
      ensures changed <==> circuit.Cells() != old(circuit.Cells())
    {
      changed := circuit.ConnectSideOfTileAt(p, index);
    }

    /** `disconnectSideOfTileAt`: the circuit's answer, and side `index` of the tile at `p` disconnected. */
    method DisconnectSideOfTileAt(p: Position, index: nat) returns (changed: bool)
      requires circuit.Valid() && AppliesAt(circuit.Cells(), p, SetSide(index, false))
      modifies circuit.Borders()
      ensures circuit.Valid()
      ensures circuit.Cells() == EditAt(old(circuit.Cells()), p, SetSide(index, false))
      ensures changed <==> circuit.Cells() != old(circuit.Cells())
    {
      changed := circuit.DisconnectSideOfTileAt(p, index);
    }

    /** `setTileComponentTo`: the circuit's answer, and the tile at `p` given the component `c`. */
    method SetTileComponentTo(p: Position, c: Component) returns (changed: bool)
      requires circuit.Valid()
      modifies circuit.tiles
      ensures circuit.Valid()
      ensures circuit.Cells() == EditAt(old(circuit.Cells()), p, SetComponent(c))
      ensures changed <==> Occupied(old(circuit.Cells()), p)
    {
      changed := circuit.SetTileComponentTo(p, c);
    }

    /** `clearTileAt`: the circuit's answer, and the tile at `p` emptied. */
    method ClearTileAt(p: Position) returns (cleared: bool)
      requires circuit.Valid()
      modifies circuit.tiles, circuit.Borders()
      ensures circuit.Valid()
      ensures circuit.Cells() == EditAt(old(circuit.Cells()), p, CircuitEdits.Clear)
      ensures cleared <==> Occupied(old(circuit.Cells()), p)
    {
      cleared := circuit.ClearTileAt(p);
    }

    /** `randomRotations`: each tile turned as often as `turns` says (the draws are a parameter). */
    method RandomRotations(turns: seq<nat>)
      requires circuit.Valid() && ValidTurns(circuit.Cells(), turns)
      modifies circuit.Borders()
      ensures circuit.Valid()
      ensures circuit.Cells() == Scrambled(old(circuit.Cells()), turns)
    {
      circuit.RandomRotations(turns);
    }

    /** `blackout`: every tile but the sources switched off. */
    method Blackout()
      requires circuit.Valid()
      modifies circuit.tiles
      ensures circuit.Cells() == BlackedOut(old(circuit.Cells()))
    {
      circuit.Blackout();
    }

    /** `propagateElectricity`: exactly the tiles that a source reaches are switched on. */
    method PropagateElectricity()
      requires circuit.Valid()
      modifies circuit.tiles
      ensures circuit.Cells() == Propagated(old(circuit.Cells()))
    {
      circuit.PropagateElectricity();
    }

    /** `clearCircuit`: every tile emptied. */
    method ClearCircuit()
      requires circuit.Valid()
      modifies circuit.tiles, circuit.Borders()
      ensures circuit.Valid()
      ensures circuit.Cells() == ClearedAll(old(circuit.Cells()))
    {
      circuit.Clear();
    }

    /** `addLine` and `removeLine`: the circuit grown or shrunk by one line. */
    method AddOrRemoveLine(add: bool) returns (error: Option<CircuitError>)
      requires circuit.Valid()
      modifies circuit
      ensures circuit.Valid()
      ensures ResizedLines(old(circuit.Cells()), add) == if error.None? then Success(circuit.Cells()) else Failure(error.value)
    {
      if add {
        error := circuit.AddLine();
      } else {
        error := circuit.RemoveLine();
      }
    }

    /** `addColumn` and `removeColumn`: the circuit grown or shrunk by one column. */
    method AddOrRemoveColumn(add: bool) returns (error: Option<CircuitError>)
      requires circuit.Valid()
      modifies circuit
      ensures circuit.Valid()
      ensures ResizedColumns(old(circuit.Cells()), add) == if error.None? then Success(circuit.Cells()) else Failure(error.value)
    {
      if add {
        error := circuit.AddColumn();
      } else {
        error := circuit.RemoveColumn();
      }
    }

    /** `containsLamp`: whether the circuit holds a lamp. */
    method CircuitContainsLamp() returns (r: bool)
      ensures r == CircuitModel.ContainsLamp(circuit.Cells())
    {
      r := circuit.ContainsLamp();
    }

    /**
     * `save`: only a level whose lamps are all on is saved, as the
     * configuration `fromLevel` gives, to the playable and the editable file
     * of its identifier under `installDir`; otherwise nothing is written.
     */
    method Save(installDir: string) returns (saved: bool, written: seq<SavedFile>)
      requires circuit.Valid()
      ensures saved == AllLampsPoweredOn(circuit.Cells())
      ensures !saved ==> written == []
      ensures saved ==>
        var content := FileContent(circuit.Cells(), ConfigShape(circuit.Cells()));
        written == [SavedFile(LevelFilePath(installDir + "/" + PlayableLevelPathPrefix, id), content),
                    SavedFile(LevelFilePath(installDir + "/" + EditableLevelPathPrefix, id), content)]
    {
      ghost var cs := circuit.Cells();
      saved := circuit.AllLampsArePoweredOn();
      if !saved {
        return saved, [];
      }
      written := SaveConfig(id, circuit, installDir, cs);
    }

    /**
     * `LevelConfig.fromLevel` of a level whose circuit holds `cs`, then its
     * `save`: the files written; the circuit is left as it was.
     */
    static method SaveConfig(id: int, circuit: Circuit, installDir: string, ghost cs: seq<TileState>) returns (written: seq<SavedFile>)
      requires circuit.Valid() && circuit.Cells() == cs
      ensures circuit.Cells() == cs
      ensures var content := FileContent(cs, ConfigShape(cs));
        written == [SavedFile(LevelFilePath(installDir + "/" + PlayableLevelPathPrefix, id), content),
                    SavedFile(LevelFilePath(installDir + "/" + EditableLevelPathPrefix, id), content)]
    {
      var lc := LevelConfig.FromLevel(id, circuit);
      assert lc.Cells() == cs && lc.shape == Some(ConfigShape(cs));
      var playable, editable, content := lc.Save(installDir);
      assert content == FileContent(cs, ConfigShape(cs));
      written := [SavedFile(playable, content), SavedFile(editable, content)];
      assert circuit.Cells() == cs;
    }
  }
}
