/**
 * A level configuration as a mutable object: what a level file holds (size,
 * identifier, shape, tiles), read from a file, taken from a level, or turned
 * back into the text of a file. Every operation is specified by the value
 * functions of `LevelCodec`.
 */
module LevelConfigs {
  import opened Wrappers
  import opened Text
  import opened TileShapes
  import opened Components
  import opened Positions
  import opened TileStates
  import opened Tiles
  import opened CircuitModel
  import opened Circuits
  import opened LevelCodec

  /** The values of the tiles, in list order. */
  function StatesOf(ts: seq<Tile>): (r: seq<TileState>)
    reads ts, BordersOf(ts)
    ensures |r| == |ts| && forall k :: 0 <= k < |ts| ==> r[k] == ts[k].State()
  {
    seq(|ts|, k requires 0 <= k < |ts| reads ts, BordersOf(ts) => ts[k].State())
  }

  /** The border arrays of the tiles. */
  ghost function BordersOf(ts: seq<Tile>): set<array<bool>>
    reads ts
  {
    set k | 0 <= k < |ts| :: ts[k].border
  }

  /** Tiles that are each well formed, with border arrays of their own. */
  ghost predicate Separate(ts: seq<Tile>)
    reads ts
  {
    && (forall k :: 0 <= k < |ts| ==> ts[k].Valid())
    && (forall a, b :: 0 <= a < b < |ts| ==> ts[a].border != ts[b].border)
  }

  /** Tiles of their own, then new tiles of their own, are tiles of their own. */
  lemma SeparateAppend(a: seq<Tile>, b: seq<Tile>)
    requires Separate(a) && Separate(b)
    requires forall k, m :: 0 <= k < |a| && 0 <= m < |b| ==> a[k].border != b[m].border
    ensures Separate(a + b)
  {
  }

  lemma StatesOfAppend(a: seq<Tile>, b: seq<Tile>)
    ensures StatesOf(a + b) == StatesOf(a) + StatesOf(b)
  {
  }

  /** A grid line being read: the column and the component of the tile being read, its sides, the tiles finished. */
  datatype RowReading = RowReading(column: nat, current: Option<Component>, sides: seq<int>, built: seq<Tile>)

  /** The values the reading holds now. */
  function StateOf(reading: RowReading): (st: RowState)
    reads reading.built, BordersOf(reading.built)
  {
    RowState(reading.column, reading.current, reading.sides, StatesOf(reading.built))
  }

  /**
   * `fromLevel` on a level `id` whose circuit holds `cs`: the dimension of the
   * circuit, the shape of its first tile (square when it has none), and the
   * tiles themselves.
   */
  function ConfigOf(id: int, cs: seq<TileState>): LevelData {
    var d := Extent(cs);
    LevelData(d.height, d.width, id, Some(if cs == [] then Square else cs[0].shape), cs)
  }

  /**
   * `Circuit.empty()` then `addTile` of each tile in turn, as both
   * `toFileContent` and `Level.fromLevelConfig` do: a tile whose position is
   * already taken is left out.
   */
  method CircuitOf(ts: seq<Tile>) returns (c: Circuit)
    requires Separate(ts)
    ensures fresh(c) && c.Valid()
    ensures forall k :: 0 <= k < |c.tiles| ==> c.tiles[k] in ts
    ensures c.Cells() == Collected(StatesOf(ts))
  {
    c := new Circuit.Empty();
    ghost var cs := StatesOf(ts);
    ghost var from: seq<nat> := [];
    var i := 0;
    while i < |ts|
      invariant 0 <= i <= |ts|
      invariant fresh(c) && c.Valid()
      invariant Drawn(c.tiles, ts, from, i)
      invariant c.Cells() == Collected(cs[..i])
    {
      from := AddNext(c, ts, i, cs, from);
      i := i + 1;
    }
    assert cs[..i] == cs;
    assert StatesOf(ts) == cs;
  }

  /** Each tile of `tiles` is the tile of `ts` that `from` names, one of the first `i`. */
  ghost predicate Drawn(tiles: seq<Tile>, ts: seq<Tile>, from: seq<nat>, i: nat) {
    && |from| == |tiles|
    && forall k :: 0 <= k < |tiles| ==> from[k] < i && from[k] < |ts| && tiles[k] == ts[from[k]]
  }

  /** One step of `CircuitOf`: the tile `ts[i]` added, unless its position is taken. */
  method AddNext(c: Circuit, ts: seq<Tile>, i: nat, ghost cs: seq<TileState>, ghost from: seq<nat>)
    returns (ghost from': seq<nat>)
    requires Separate(ts) && cs == StatesOf(ts) && i < |ts|
    requires c.Valid() && c.Cells() == Collected(cs[..i]) && Drawn(c.tiles, ts, from, i)
    modifies c
    ensures c.Valid() && c.Cells() == Collected(cs[..i + 1]) && Drawn(c.tiles, ts, from', i + 1)
  {
    ghost var before := c.Cells();
    assert ts[i].State() == cs[i];
    var added := c.AddTile(ts[i]);
    assert c.Cells() == if Occupied(before, cs[i].position) then before else before + [cs[i]];
    CollectedStep(cs, i);
    from' := if added then from + [i] else from;
  }

  /** `Collected` over one more tile. */
  lemma CollectedStep(cs: seq<TileState>, i: nat)
    requires i < |cs|
    ensures Collected(cs[..i + 1])
      == if Occupied(Collected(cs[..i]), cs[i].position) then Collected(cs[..i]) else Collected(cs[..i]) + [cs[i]]
  {
    assert cs[..i + 1][..i] == cs[..i];
  }

  /**
   * Line `i` of the grid of `c`, `w` wide, as `toFileContent` writes it: the
   * cell of each position followed by a space, or by a line feed after the
   * last one.
   */
  method WriteGridLine(c: Circuit, i: nat, w: nat) returns (text: string)
    requires w >= 1
    ensures text == RowLine(c.Cells(), i, w) + "\n"
  {
    ghost var cs := c.Cells();
    ghost var cells := RowCells(cs, i, w);
    text := "";
    var j: nat := 0;
    while j < w
      invariant j <= w
      invariant j < w ==> text == Terminated(cells[..j], " ")
      invariant j == w ==> text == Join(cells, " ") + "\n"
      invariant c.Cells() == cs
    {
      var rep := CellRep(c, Position(i, j));
      assert c.Cells() == cs;
      RowCellsAt(cs, i, w, j);
      GridLineStep(cells, j, text, rep);
      text := text + rep + (if j == w - 1 then "\n" else " ");
      j := j + 1;
    }
  }

  /** The cell at column `j` of a grid line. */
  lemma RowCellsAt(cs: seq<TileState>, i: nat, w: nat, j: nat)
    requires j < w
    ensures RowCells(cs, i, w)[j] == CellText(cs, Position(i, j))
  {
  }

  /** The text of a grid line after one more cell. */
  lemma GridLineStep(cells: seq<string>, j: nat, text: string, rep: string)
    requires j < |cells| && text == Terminated(cells[..j], " ") && rep == cells[j]
    ensures j == |cells| - 1 ==> text + rep + "\n" == Join(cells, " ") + "\n"
    ensures j < |cells| - 1 ==> text + rep + " " == Terminated(cells[..j + 1], " ")
  {
    if j == |cells| - 1 {
      JoinIsTerminated(cells, " ");
    } else {
      TerminatedStep(cells, j, " ");
    }
  }

  /** What `toFileContent` writes for position `p` of `c`: "." where there is no tile. */
  method CellRep(c: Circuit, p: Position) returns (rep: string)
    ensures rep == CellText(c.Cells(), p)
  {
    ghost var cs := c.Cells();
    var cur := c.GetTileAt(p);
    assert c.Cells() == cs;
    if cur == null {
      rep := ".";
    } else {
      ghost var k := IndexAt(cs, p).value;
      assert cur.State() == cs[k];
      rep := cur.LevelRep();
      assert c.Cells() == cs;
    }
  }

  /** The lines written for the gathered tiles `cs`: the header, then the grid. */
  function GridLines(cs: seq<TileState>, s: Shape): (r: seq<string>)
    ensures |r| == Extent(cs).height + 1
    ensures r[0] == HeaderLine(Extent(cs), s)
    ensures forall i :: 0 <= i < Extent(cs).height ==> r[i + 1] == RowLine(cs, i, Extent(cs).width)
  {
    [HeaderLine(Extent(cs), s)] + GridText(cs, Extent(cs).height, Extent(cs).width)
  }

  /** The lines of a level file are those of the gathered tiles. */
  lemma FileLinesOfGrid(ts: seq<TileState>, s: Shape)
    ensures FileLines(ts, s) == GridLines(Collected(ts), s)
  {
  }

  /**
   * The body of `toFileContent` once the circuit `c` is built and its
   * dimension `d` known: the header, then every line of the grid.
   */
  method WriteGrid(c: Circuit, d: Size, s: Shape) returns (content: string)
    requires d == Extent(c.Cells())
    ensures content == Unlines(GridLines(c.Cells(), s))
  {
    ghost var cs := c.Cells();
    ghost var lines := GridLines(cs, s);
    content := NatToString(d.height) + " " + NatToString(d.width) + " " + FileIdentifier(s) + "\n";
    assert content == HeaderLine(d, s) + "\n";
    assert lines[..0] == [];
    assert Unlines(lines[..0]) == "";
    UnlinesPrefix(lines, 0);
    assert Unlines(lines[..1]) == lines[0] + "\n";
    var i: nat := 0;
    while i < d.height
      invariant i <= d.height && c.Cells() == cs
      invariant content == Unlines(lines[..i + 1])
    {
      var line := WriteGridLine(c, i, d.width);
      assert c.Cells() == cs;
      GridContentStep(cs, s, i, content, line);
      content := content + line;
      i := i + 1;
    }
    assert lines[..i + 1] == lines;
    assert content == Unlines(lines);
  }

  /** The text of the header and the first `i` grid lines, then grid line `i`. */
  lemma GridContentStep(cs: seq<TileState>, s: Shape, i: nat, content: string, line: string)
    requires i < Extent(cs).height
    requires content == Unlines(GridLines(cs, s)[..i + 1])
    requires line == RowLine(cs, i, Extent(cs).width) + "\n"
    ensures content + line == Unlines(GridLines(cs, s)[..i + 2])
  {
    var lines := GridLines(cs, s);
    UnlinesPrefix(lines, i + 1);
  }

  /** The text of the level file of the tiles `ts`, and the dimension of its grid. */
  method FileText(ts: seq<Tile>, s: Shape) returns (content: string, d: Size)
    requires Separate(ts)
    ensures content == FileContent(StatesOf(ts), s)
    ensures d == Extent(Collected(StatesOf(ts)))
  {
    ghost var states := StatesOf(ts);
    var c := CircuitOf(ts);
    assert StatesOf(ts) == states;
    ghost var cs := c.Cells();
    assert cs == Collected(states);
    d := c.Dimension();
    assert c.Cells() == cs;
    assert d == Extent(cs);
    content := WriteGrid(c, d, s);
    assert c.Cells() == cs && StatesOf(ts) == states;
    FileLinesOfGrid(states, s);
  }

  /** The tiles of a valid circuit are tiles of their own, whose values are the circuit's. */
  lemma CircuitStates(c: Circuit)
    requires c.Valid()
    ensures Separate(c.tiles) && StatesOf(c.tiles) == c.Cells()
  {
  }

  class LevelConfig {
    var height: int
    var width: int
    var id: int
    /** `None` while no header has named a shape. */
    var shape: Option<Shape>
    var tiles: seq<Tile>

    /** Every tile is well formed and has a border array of its own. */
    ghost predicate Valid()
      reads this, tiles
    {
      Separate(tiles)
    }

    /** The border arrays of the tiles. */
    ghost function Borders(): set<array<bool>>
      reads this, tiles
    {
      BordersOf(tiles)
    }

    /** The values of the tiles, in list order. */
    function Cells(): (cs: seq<TileState>)
      reads this, tiles, Borders()
      ensures |cs| == |tiles|
    {
      StatesOf(tiles)
    }

    /** What this configuration holds, as a value. */
    function Data(): LevelData
      reads this, tiles, Borders()
    {
      LevelData(height, width, id, shape, Cells())
    }

    constructor Make(height: int, width: int, id: int, shape: Option<Shape>, tiles: seq<Tile>)
      ensures this.height == height && this.width == width && this.id == id
      ensures this.shape == shape && this.tiles == tiles
    {
      this.height := height;
      this.width := width;
      this.id := id;
      this.shape := shape;
      this.tiles := tiles;
    }

    /**
     * `fromLevel`: the configuration of level `id` whose circuit is
     * `circuit`. It holds the circuit's own tiles, not copies.
     */
    static method FromLevel(id: int, circuit: Circuit) returns (lc: LevelConfig)
      requires circuit.Valid()
      ensures fresh(lc) && lc.Valid() && lc.tiles == circuit.tiles
      ensures lc.Data() == ConfigOf(id, old(circuit.Cells()))
    {
      ghost var cs := circuit.Cells();
      var d := circuit.Dimension();
      assert circuit.Cells() == cs;
      var shape := Square;
      if |circuit.tiles| > 0 {
        shape := circuit.tiles[0].shape;
      }
      assert shape == if cs == [] then Square else cs[0].shape;
      CircuitStates(circuit);
      ghost var states := StatesOf(circuit.tiles);
      lc := new LevelConfig.Make(d.height, d.width, id, Some(shape), circuit.tiles);
      assert StatesOf(lc.tiles) == states;
      assert ConfigOf(id, cs) == LevelData(d.height, d.width, id, Some(shape), cs);
    }

    /**
     * `Tile.of` then `connect` of each side read: fails when no shape or no
     * component is known, or at the first side that the shape does not have.
     */
    static method NewTileWithSides(shape: Option<Shape>, p: Position, c: Option<Component>, sides: seq<int>)
      returns (r: Result<Tile, LevelFileError>)
      ensures BuildTile(shape, p, c, sides).Failure? ==> r == Failure(MalformedLevelFile)
      ensures BuildTile(shape, p, c, sides).Success? ==>
        r.Success? && fresh(r.value) && fresh(r.value.border) && r.value.Valid()
        && r.value.State() == BuildTile(shape, p, c, sides).value
    {
      if shape.None? || c.None? {
        return Failure(MalformedLevelFile);
      }
      var n := Sides(shape.value);
      var t := new Tile.Of(shape.value, p, c.value);
      var m := 0;
      while m < |sides|
        invariant 0 <= m <= |sides|
        invariant fresh(t) && fresh(t.border) && t.Valid()
        invariant forall q :: 0 <= q < m ==> 0 <= sides[q] < n
        invariant t.State() == NewTile(shape.value, p, c.value).(border := BorderWith(n, sides[..m]))
      {
        if !(0 <= sides[m] < t.border.Length) {
          return Failure(MalformedLevelFile);
        }
        var _ := t.Connect(sides[m]);
        assert sides[..m + 1] == sides[..m] + [sides[m]];
        assert t.border[..] == BorderWith(n, sides[..m + 1]);
        m := m + 1;
      }
      assert sides[..m] == sides;
      r := Success(t);
    }

    /**
     * One grid line of a level file: its tokens read from left to right, each
     * marker finishing the tile being read and starting the next, each other
     * token a side of the tile being read; then the last tile.
     */
    static method ReadRow(text: string, shape: Option<Shape>, line: nat) returns (r: Result<seq<Tile>, LevelFileError>)
      ensures ParseRow(text, shape, line).Failure? ==> r == Failure(MalformedLevelFile)
      ensures ParseRow(text, shape, line).Success? ==>
        && r.Success? && Separate(r.value)
        && (forall k :: 0 <= k < |r.value| ==> fresh(r.value[k]) && fresh(r.value[k].border))
        && StatesOf(r.value) == ParseRow(text, shape, line).value
    {
      var tokens := SplitOnSpace(text);
      var reading := ReadTokens(tokens, shape, line);
      if reading.Failure? {
        return Failure(MalformedLevelFile);
      }
      var rd := reading.value;
      ghost var st := StateOf(rd);
      r := AppendTile(rd.built, shape, Position(line, rd.column), rd.current, rd.sides);
      ParseRowOf(text, shape, line, st);
    }

    /** The tokens of a grid line read one after the other; the first that cannot be read ends the reading. */
    static method ReadTokens(tokens: seq<string>, shape: Option<Shape>, line: nat) returns (r: Result<RowReading, LevelFileError>)
      ensures ParseTokens(RowStart, tokens, shape, line) == if r.Failure? then Failure(MalformedLevelFile) else Success(StateOf(r.value))
      ensures r.Success? ==>
        && Separate(r.value.built)
        && forall k :: 0 <= k < |r.value.built| ==> fresh(r.value.built[k]) && fresh(r.value.built[k].border)
    {
      var reading := RowReading(0, None, [], []);
      var i := 0;
      while i < |tokens|
        invariant 0 <= i <= |tokens|
        invariant Separate(reading.built)
        invariant forall k :: 0 <= k < |reading.built| ==> fresh(reading.built[k]) && fresh(reading.built[k].border)
        invariant ParseTokens(RowStart, tokens, shape, line) == ParseTokens(StateOf(reading), tokens[i..], shape, line)
      {
        ParseTokensStep(StateOf(reading), tokens, i, shape, line);
        var next := ReadToken(reading, tokens[i], shape, line);
        if next.Failure? {
          return Failure(MalformedLevelFile);
        }
        reading := next.value;
        i := i + 1;
      }
      assert tokens[i..] == [];
      r := Success(reading);
    }

    /** The tiles `built`, then the tile read from `current` and `sides` at `p`, new. */
    static method AppendTile(built: seq<Tile>, shape: Option<Shape>, p: Position, current: Option<Component>, sides: seq<int>)
      returns (r: Result<seq<Tile>, LevelFileError>)
      requires Separate(built)
      ensures BuildTile(shape, p, current, sides).Failure? ==> r == Failure(MalformedLevelFile)
      ensures BuildTile(shape, p, current, sides).Success? ==>
        && r.Success? && Separate(r.value)
        && |r.value| == |built| + 1 && r.value[..|built|] == built
        && fresh(r.value[|built|]) && fresh(r.value[|built|].border)
        && StatesOf(r.value) == old(StatesOf(built)) + [BuildTile(shape, p, current, sides).value]
    {
      ghost var states := StatesOf(built);
      var t := NewTileWithSides(shape, p, current, sides);
      if t.Failure? {
        return Failure(MalformedLevelFile);
      }
      assert StatesOf(built) == states;
      r := Success(built + [t.value]);
      assert r.value[..|built|] == built;
      assert StatesOf(r.value) == states + [t.value.State()];
    }

    /** One token of a grid line, read into the tiles built so far. */
    static method ReadToken(reading: RowReading, token: string, shape: Option<Shape>, line: nat)
      returns (r: Result<RowReading, LevelFileError>)
      requires Separate(reading.built)
      ensures ParseToken(old(StateOf(reading)), token, shape, line)
        == if r.Failure? then Failure(MalformedLevelFile) else Success(StateOf(r.value))
      ensures r.Success? ==>
        && Separate(r.value.built) && |reading.built| <= |r.value.built|
        && r.value.built[..|reading.built|] == reading.built
        && forall k :: |reading.built| <= k < |r.value.built| ==> fresh(r.value.built[k]) && fresh(r.value.built[k].border)
    {
      if IsMarker(token) {
        var current := Some(MarkerComponent(token));
        if reading.current.Some? {
          var built := AppendTile(reading.built, shape, Position(line, reading.column), reading.current, reading.sides);
          if built.Failure? {
            return Failure(MalformedLevelFile);
          }
          r := Success(RowReading(reading.column + 1, current, [], built.value));
        } else {
          r := Success(reading.(current := current));
        }
      } else {
        var v := ParseInt(token);
        if v.None? {
          return Failure(MalformedLevelFile);
        }
        r := Success(reading.(sides := reading.sides + [v.value]));
      }
    }

    /** The header of a level file: the height, the width and, for the codes `H` and `S`, the shape. */
    method ReadHeader(text: string) returns (ok: bool)
      requires Valid()
      modifies this
      ensures Valid() && tiles == old(tiles)
      ensures ParseHeader(old(Data()), text) == if ok then Success(Data()) else Failure(MalformedLevelFile)
    {
      ghost var before := Data();
      ghost var states := StatesOf(tiles);
      assert before == LevelData(height, width, id, shape, states);
      var tokens := SplitOnSpace(text);
      if |tokens| < 3 {
        return false;
      }
      var h := ParseInt(tokens[0]);
      var w := ParseInt(tokens[1]);
      if h.None? || w.None? {
        return false;
      }
      var s := shape;
      if tokens[2] == "H" {
        s := Some(Hexagon);
      }
      if tokens[2] == "S" {
        s := Some(Square);
      }
      assert ParseHeader(before, text) == Success(LevelData(h.value, w.value, id, s, states));
      SetHeader(h.value, w.value, s);
      ok := true;
    }

    /** The size and the shape a header gives, set; the tiles are left as they are. */
    method SetHeader(h: int, w: int, s: Option<Shape>)
      requires Valid()
      modifies this
      ensures Valid() && tiles == old(tiles)
      ensures Data() == old(Data()).(height := h, width := w, shape := s)
    {
      ghost var states := StatesOf(tiles);
      height, width, shape := h, w, s;
      assert StatesOf(tiles) == states;
    }

    /** Grid line `n - 1` of a level file: its tiles, new ones, added after the others. */
    method ReadGridLine(text: string, n: nat) returns (ok: bool)
      requires Valid() && n >= 1
      modifies this
      ensures Valid()
      ensures ParseGridLine(old(Data()), text, n - 1) == if ok then Success(Data()) else Failure(MalformedLevelFile)
    {
      ghost var before := Data();
      ghost var states := StatesOf(tiles);
      var row := ReadRow(text, shape, n - 1);
      if row.Failure? {
        return false;
      }
      assert StatesOf(tiles) == states && Separate(tiles);
      ghost var rowStates := StatesOf(row.value);
      assert ParseRow(text, before.shape, n - 1) == Success(rowStates);
      ghost var old_tiles := tiles;
      tiles := tiles + row.value;
      SeparateAppend(old_tiles, row.value);
      StatesOfAppend(old_tiles, row.value);
      assert StatesOf(old_tiles) == states && StatesOf(row.value) == rowStates;
      assert Cells() == before.tiles + rowStates;
      ok := true;
    }

    /** Line `n` of a level file read into this configuration. */
    method ReadLine(text: string, n: nat) returns (ok: bool)
      requires Valid()
      modifies this
      ensures Valid()
      ensures ParseLine(old(Data()), text, n) == if ok then Success(Data()) else Failure(MalformedLevelFile)
    {
      if n == 0 {
        ok := ReadHeader(text);
      } else {
        ok := ReadGridLine(text, n);
      }
    }

    /**
     * `fromFile`: the lines of the file (`None` when it cannot be read) and
     * the path it was read from. The first line gives the size and the shape,
     * each following line a line of tiles.
     */
    static method FromFile(file: Option<seq<string>>, path: string) returns (r: Result<LevelConfig, LevelFileError>)
      ensures ReadLevel(file, path).Failure? ==> r == Failure(ReadLevel(file, path).error)
      ensures ReadLevel(file, path).Success? ==>
        r.Success? && fresh(r.value) && r.value.Valid() && r.value.Data() == ReadLevel(file, path).value
    {
      if file.None? {
        return Failure(LevelNotFound);
      }
      var lines := file.value;
      var id := IdFromFileName(path);
      if id.None? {
        return Failure(MalformedLevelFile);
      }
      var res := new LevelConfig.Make(0, 0, id.value, None, []);
      assert res.Data() == LevelData(0, 0, id.value, None, []);
      var ok := res.ReadLines(lines);
      if !ok {
        return Failure(MalformedLevelFile);
      }
      r := Success(res);
    }

    /** Line `n` of `lines` read, then what remains to be read from the lines after it. */
    method ReadNext(lines: seq<string>, n: nat) returns (ok: bool)
      requires Valid() && n < |lines|
      modifies this
      ensures Valid()
      ensures ParseFrom(lines, n, old(Data())) == if ok then ParseFrom(lines, n + 1, Data()) else Failure(MalformedLevelFile)
    {
      ParseFromNext(lines, n, Data());
      ok := ReadLine(lines[n], n);
    }

    /** The lines of a level file read in turn into this configuration; the first failure ends the reading. */
    method ReadLines(lines: seq<string>) returns (ok: bool)
      requires Valid()
      modifies this
      ensures Valid()
      ensures ParseFrom(lines, 0, old(Data())) == if ok then Success(Data()) else Failure(MalformedLevelFile)
    {
      ghost var outcome := ParseFrom(lines, 0, Data());
      var n := 0;
      while n < |lines|
        invariant 0 <= n <= |lines|
        invariant Valid()
        invariant outcome == ParseFrom(lines, n, Data())
      {
        ok := ReadNext(lines, n);
        if !ok {
          return;
        }
        n := n + 1;
      }
      ParseFromEnd(lines, Data());
      ok := true;
    }

    /**
     * `toFileContent`: the text of the level file. The tiles are first
     * gathered into a circuit, whose dimension becomes the height and the
     * width of this configuration; then every position of the grid is written,
     * line by line.
     */
    method ToFileContent() returns (content: string)
      requires Valid() && shape.Some?
      modifies this
      ensures Valid() && tiles == old(tiles) && id == old(id) && shape == old(shape) && Cells() == old(Cells())
      ensures height == Extent(Collected(old(Cells()))).height && width == Extent(Collected(old(Cells()))).width
      ensures content == FileContent(old(Cells()), shape.value)
    {
      ghost var states := StatesOf(tiles);
      assert Cells() == states;
      var d;
      content, d := FileText(tiles, shape.value);
      assert Cells() == states && Valid();
      SetHeader(d.height, d.width, shape);
    }

    /**
     * `save`: the level is written to the file of its identifier in both the
     * playable and the editable directory under `installDir`. The paths and
     * the text written are returned.
     */
    method Save(installDir: string) returns (playable: string, editable: string, content: string)
      requires Valid() && shape.Some?
      modifies this
      ensures Valid() && tiles == old(tiles) && id == old(id) && shape == old(shape) && Cells() == old(Cells())
      ensures height == Extent(Collected(old(Cells()))).height && width == Extent(Collected(old(Cells()))).width
      ensures playable == LevelFilePath(installDir + "/" + PlayableLevelPathPrefix, id)
      ensures editable == LevelFilePath(installDir + "/" + EditableLevelPathPrefix, id)
      ensures content == FileContent(old(Cells()), shape.value)
    {
      var suffix := "/" + LevelFileBaseName + IntToString(id) + FileFormat;
      var prefix := installDir + "/";
      playable := prefix + PlayableLevelPathPrefix + suffix;
      editable := prefix + EditableLevelPathPrefix + suffix;
      content := ToFileContent();
    }
  }
}
