/**
 * Reading back a written level file. For a valid circuit whose tiles all have
 * the shape written in the header, reading the text `toFileContent` produces
 * gives the same size, that shape, and at every position of the grid the
 * tile that was there (same component, same connected sides), or an empty
 * tile where there was none. Only the power flags are not kept: a tile read
 * from a file is powered exactly when it holds a source.
 */
module LevelRoundTrip {
  import opened Wrappers
  import opened Text
  import opened TileShapes
  import opened Components
  import opened Positions
  import opened TileStates
  import opened CircuitModel
  import opened LevelCodec

  // ------------------------------------------------- what the reading gives

  /** The component written at `p`: the tile's, or `Empty` for a `.` cell. */
  function CellComponent(cs: seq<TileState>, p: Position): Component {
    match IndexAt(cs, p)
    case None => Empty
    case Some(k) => cs[k].component
  }

  /** The sides written at `p`: the connected sides of the tile, in ascending order. */
  function CellSides(cs: seq<TileState>, p: Position): seq<nat> {
    match IndexAt(cs, p)
    case None => []
    case Some(k) => Indices(cs[k].border, true)
  }

  /** The words of the cell written at `p`. */
  function CellWords(cs: seq<TileState>, p: Position): seq<string> {
    [Diminutive(CellComponent(cs, p))] + NumberWords(CellSides(cs, p))
  }

  /** The tile read back at `p` from a grid of shape `s`. */
  function Reloaded(cs: seq<TileState>, s: Shape, p: Position): TileState {
    NewTile(s, p, CellComponent(cs, p)).(border := BorderWith(Sides(s), CellSides(cs, p)))
  }

  /** The first `n` tiles read back from grid line `i`. */
  function ReloadedRow(cs: seq<TileState>, s: Shape, i: nat, n: nat): (r: seq<TileState>)
    ensures |r| == n
  {
    seq(n, j requires 0 <= j < n => Reloaded(cs, s, Position(i, j)))
  }

  /** The tiles read back from the first `h` grid lines, each `w` wide, line after line. */
  function ReloadedGrid(cs: seq<TileState>, s: Shape, h: nat, w: nat): seq<TileState>
    decreases h
  {
    if h == 0 then [] else ReloadedGrid(cs, s, h - 1, w) + ReloadedRow(cs, s, h - 1, w)
  }

  /** A valid circuit all of whose tiles have shape `s`. */
  predicate ShapedAs(cs: seq<TileState>, s: Shape) {
    Valid(cs) && forall k :: 0 <= k < |cs| ==> cs[k].shape == s
  }

  /**
   * A tile read back is the tile written, up to its power flag: same shape,
   * position, component and border; where no tile was, an empty tile without
   * cable.
   */
  lemma ReloadedIsWritten(cs: seq<TileState>, s: Shape, p: Position)
    requires ShapedAs(cs, s)
    ensures Reloaded(cs, s, p).shape == s && Reloaded(cs, s, p).position == p
    ensures Occupied(cs, p) ==>
      var t := cs[IndexAt(cs, p).value];
      Reloaded(cs, s, p) == t.(powered := t.component == Source)
    ensures !Occupied(cs, p) ==> Reloaded(cs, s, p) == NewTile(s, p, Empty)
  {
    match IndexAt(cs, p)
    case None =>
      assert BorderWith(Sides(s), []) == NoSides(Sides(s));
    case Some(k) =>
      assert WellFormed(cs[k]);
      var b := BorderWith(Sides(s), CellSides(cs, p));
      assert b == cs[k].border;
  }

  /** Tile `j` of a line read back is the tile read back at column `j` of that line. */
  lemma ReloadedRowSpec(cs: seq<TileState>, s: Shape, i: nat, w: nat)
    ensures forall j :: 0 <= j < w ==>
      var t := ReloadedRow(cs, s, i, w)[j];
      t.position == Position(i, j) && t == Reloaded(cs, s, t.position) && WellFormed(t)
  {
  }

  lemma ReloadedRowPositions(cs: seq<TileState>, s: Shape, i: nat, w: nat)
    ensures forall j :: 0 <= j < w ==> ReloadedRow(cs, s, i, w)[j].position == Position(i, j)
  {
  }

  /** The tiles read back from an `h` by `w` grid lie inside it, each the tile read back at its position. */
  lemma {:induction false} ReloadedGridTiles(cs: seq<TileState>, s: Shape, h: nat, w: nat)
    ensures forall k :: 0 <= k < |ReloadedGrid(cs, s, h, w)| ==>
      var t := ReloadedGrid(cs, s, h, w)[k];
      t == Reloaded(cs, s, t.position) && t.position.line < h && t.position.column < w && WellFormed(t)
    decreases h
  {
    if h > 0 {
      ReloadedGridTiles(cs, s, h - 1, w);
      ReloadedRowSpec(cs, s, h - 1, w);
      var front := ReloadedGrid(cs, s, h - 1, w);
      var row := ReloadedRow(cs, s, h - 1, w);
      forall k | 0 <= k < |front + row|
        ensures var t: TileState := (front + row)[k];
          t == Reloaded(cs, s, t.position) && t.position.line < h && t.position.column < w && WellFormed(t)
      {
        if k < |front| {
          assert (front + row)[k] == front[k];
        } else {
          assert (front + row)[k] == row[k - |front|];
        }
      }
    }
  }

  /** The tiles read back from the first `h` grid lines lie on those lines. */
  lemma {:induction false} ReloadedGridLines(cs: seq<TileState>, s: Shape, h: nat, w: nat)
    ensures forall k :: 0 <= k < |ReloadedGrid(cs, s, h, w)| ==> ReloadedGrid(cs, s, h, w)[k].position.line < h
    decreases h
  {
    if h > 0 {
      ReloadedGridLines(cs, s, h - 1, w);
      ReloadedRowPositions(cs, s, h - 1, w);
      var front := ReloadedGrid(cs, s, h - 1, w);
      var row := ReloadedRow(cs, s, h - 1, w);
      var g: seq<TileState> := front + row;
      forall k | 0 <= k < |g|
        ensures g[k].position.line < h
      {
        if k < |front| {
          assert g[k] == front[k];
        } else {
          assert g[k] == row[k - |front|];
        }
      }
    }
  }

  /** No two tiles read back from a grid share a position. */
  lemma {:induction false} ReloadedGridDistinct(cs: seq<TileState>, s: Shape, h: nat, w: nat)
    ensures forall a, b :: 0 <= a < b < |ReloadedGrid(cs, s, h, w)| ==>
      ReloadedGrid(cs, s, h, w)[a].position != ReloadedGrid(cs, s, h, w)[b].position
    decreases h
  {
    if h > 0 {
      ReloadedGridDistinct(cs, s, h - 1, w);
      ReloadedGridLines(cs, s, h - 1, w);
      ReloadedRowPositions(cs, s, h - 1, w);
      var front := ReloadedGrid(cs, s, h - 1, w);
      var row := ReloadedRow(cs, s, h - 1, w);
      LineAppendKeepsApart(front, row, h);
    }
  }

  /** A line of tiles, one per column of line `h - 1`, added to tiles apart above that line keeps them apart. */
  lemma LineAppendKeepsApart(front: seq<TileState>, row: seq<TileState>, h: nat)
    requires h >= 1
    requires forall a, b :: 0 <= a < b < |front| ==> front[a].position != front[b].position
    requires forall k :: 0 <= k < |front| ==> front[k].position.line < h - 1
    requires forall j :: 0 <= j < |row| ==> row[j].position == Position(h - 1, j)
    ensures forall a, b :: 0 <= a < b < |front + row| ==> (front + row)[a].position != (front + row)[b].position
  {
    var g := front + row;
    forall a, b | 0 <= a < b < |g| ensures g[a].position != g[b].position {
      if a >= |front| {
        assert g[a] == row[a - |front|] && g[b] == row[b - |front|];
      } else if b >= |front| {
        assert g[a] == front[a] && g[b] == row[b - |front|];
      } else {
        assert g[a] == front[a] && g[b] == front[b];
      }
    }
  }

  /** The positions of the tiles, in order. */
  function PositionsOf(g: seq<TileState>): (r: seq<Position>)
    ensures |r| == |g| && forall k :: 0 <= k < |g| ==> r[k] == g[k].position
  {
    seq(|g|, k requires 0 <= k < |g| => g[k].position)
  }

  /** A line of `w` tiles at line `h - 1` added to tiles covering the lines above covers the lines up to `h - 1`. */
  lemma CoversAppend(front: seq<TileState>, row: seq<TileState>, h: nat, w: nat)
    requires h >= 1 && |row| == w
    requires forall i, j :: 0 <= i < h - 1 && 0 <= j < w ==> Position(i, j) in PositionsOf(front)
    requires forall j :: 0 <= j < w ==> row[j].position == Position(h - 1, j)
    ensures forall i, j :: 0 <= i < h && 0 <= j < w ==> Position(i, j) in PositionsOf(front + row)
  {
    var g := front + row;
    forall i, j | 0 <= i < h && 0 <= j < w ensures Position(i, j) in PositionsOf(g) {
      if i < h - 1 {
        var k :| 0 <= k < |front| && PositionsOf(front)[k] == Position(i, j);
        assert PositionsOf(g)[k] == g[k].position == front[k].position;
      } else {
        assert PositionsOf(g)[|front| + j] == g[|front| + j].position == row[j].position;
      }
    }
  }

  /** Every position of an `h` by `w` grid has a tile read back. */
  lemma {:induction false} ReloadedGridCovers(cs: seq<TileState>, s: Shape, h: nat, w: nat)
    ensures forall i, j :: 0 <= i < h && 0 <= j < w ==> Position(i, j) in PositionsOf(ReloadedGrid(cs, s, h, w))
    decreases h
  {
    if h > 0 {
      ReloadedGridCovers(cs, s, h - 1, w);
      ReloadedRowPositions(cs, s, h - 1, w);
      CoversAppend(ReloadedGrid(cs, s, h - 1, w), ReloadedRow(cs, s, h - 1, w), h, w);
    }
  }

  /**
   * Reading the file written for a valid circuit of one shape gives, at each
   * position, the tile written there with its power flag reset, an empty
   * tile at each position of the grid without tile, and no tile outside the
   * grid.
   */
  lemma ReadWrittenAt(cs: seq<TileState>, s: Shape, path: string, id: int, p: Position)
    requires ShapedAs(cs, s)
    requires Extent(cs).height <= IntMax && Extent(cs).width <= IntMax
    requires IdFromFileName(path) == Some(id)
    ensures
      var r := ReadLevel(Some(Lines(FileContent(cs, s))), path);
      && r.Success? && Valid(r.value.tiles) && r.value.shape == Some(s) && r.value.id == id
      && r.value.height == Extent(cs).height && r.value.width == Extent(cs).width
      && (Occupied(r.value.tiles, p) <==> p.line < r.value.height && p.column < r.value.width)
      && (Occupied(cs, p) ==>
            var t := cs[IndexAt(cs, p).value];
            r.value.tiles[IndexAt(r.value.tiles, p).value] == t.(powered := t.component == Source))
      && (Occupied(r.value.tiles, p) && !Occupied(cs, p) ==>
            r.value.tiles[IndexAt(r.value.tiles, p).value] == NewTile(s, p, Empty))
  {
    var d := Extent(cs);
    ReadWritten(cs, s, path, id);
    var g := ReloadedGrid(cs, s, d.height, d.width);
    ReloadedGridTiles(cs, s, d.height, d.width);
    ReloadedGridDistinct(cs, s, d.height, d.width);
    ReloadedGridCovers(cs, s, d.height, d.width);
    ReloadedIsWritten(cs, s, p);
    if Occupied(cs, p) {
      var k := IndexAt(cs, p).value;
      assert cs[k].position.line < d.height && cs[k].position.column < d.width;
    }
    if p.line < d.height && p.column < d.width {
      assert Position(p.line, p.column) in PositionsOf(g);
      var k :| 0 <= k < |g| && PositionsOf(g)[k] == p;
      assert g[k].position == p;
    }
  }

  // ------------------------------------------------------------ the words

  /** A word the splitting gives back: non-empty, without space or line feed. */
  predicate IsWord(w: string) {
    w != "" && ' ' !in w && '\n' !in w
  }

  lemma NumberIsWord(n: nat)
    ensures IsWord(NatToString(n)) && !IsMarker(NatToString(n))
  {
    var w := NatToString(n);
    assert IsDigit(w[0]);
    assert forall c :: c in w ==> IsDigit(c);
  }

  lemma DiminutiveIsMarker(c: Component)
    ensures IsWord(Diminutive(c)) && IsMarker(Diminutive(c))
    ensures MarkerComponent(Diminutive(c)) == c
  {
    FromDiminutiveOfDiminutive(c);
  }

  lemma CellWordsAreWords(cs: seq<TileState>, p: Position)
    ensures forall m :: 0 <= m < |CellWords(cs, p)| ==> IsWord(CellWords(cs, p)[m])
  {
    DiminutiveIsMarker(CellComponent(cs, p));
    var ks := CellSides(cs, p);
    forall m | 0 <= m < |ks| ensures IsWord(NumberWords(ks)[m]) {
      NumberIsWord(ks[m]);
    }
  }

  /** The text of a cell is its words joined by single spaces. */
  lemma CellTextIsWords(cs: seq<TileState>, p: Position)
    ensures CellText(cs, p) == Join(CellWords(cs, p), " ")
  {
    match IndexAt(cs, p)
    case None =>
    case Some(k) => LevelRepIsWords(cs[k]);
  }

  /** The words of several groups, group after group. */
  function Flatten(ws: seq<seq<string>>): seq<string>
    decreases |ws|
  {
    if ws == [] then [] else Flatten(ws[..|ws| - 1]) + ws[|ws| - 1]
  }

  lemma {:induction false} FlattenWords(ws: seq<seq<string>>)
    requires forall j, m :: 0 <= j < |ws| && 0 <= m < |ws[j]| ==> IsWord(ws[j][m])
    ensures forall m :: 0 <= m < |Flatten(ws)| ==> IsWord(Flatten(ws)[m])
    decreases |ws|
  {
    if ws != [] {
      var n := |ws|;
      FlattenWords(ws[..n - 1]);
      var f := Flatten(ws[..n - 1]);
      forall m | 0 <= m < |Flatten(ws)| ensures IsWord(Flatten(ws)[m]) {
        if m >= |f| {
          assert Flatten(ws)[m] == ws[n - 1][m - |f|];
        } else {
          assert Flatten(ws)[m] == f[m];
        }
      }
    }
  }

  /** Joining groups that were joined already is joining all their words. */
  lemma {:induction false} JoinOfJoins(ws: seq<seq<string>>, sep: string)
    requires |ws| >= 1 && forall j :: 0 <= j < |ws| ==> |ws[j]| >= 1
    ensures |Flatten(ws)| >= 1
    ensures Join(seq(|ws|, j requires 0 <= j < |ws| => Join(ws[j], sep)), sep) == Join(Flatten(ws), sep)
    decreases |ws|
  {
    var n := |ws|;
    var js := seq(n, j requires 0 <= j < n => Join(ws[j], sep));
    if n == 1 {
      assert js == [Join(ws[0], sep)];
      assert ws[..0] == [];
      assert Flatten(ws) == ws[0];
    } else {
      var front := ws[..n - 1];
      JoinOfJoins(front, sep);
      var jf := seq(n - 1, j requires 0 <= j < n - 1 => Join(front[j], sep));
      assert js == jf + [Join(ws[n - 1], sep)];
      JoinAppend(jf, Join(ws[n - 1], sep), sep);
      JoinConcat(Flatten(front), ws[n - 1], sep);
    }
  }

  /** The word groups of grid line `i`, one per cell. */
  function RowWords(cs: seq<TileState>, i: nat, w: nat): (r: seq<seq<string>>)
    ensures |r| == w
  {
    seq(w, j requires 0 <= j < w => CellWords(cs, Position(i, j)))
  }

  /** The tokens of a written grid line are the words of its cells, and the line has no line feed. */
  lemma RowTokens(cs: seq<TileState>, i: nat, w: nat)
    requires w >= 1
    ensures SplitOnSpace(RowLine(cs, i, w)) == Flatten(RowWords(cs, i, w))
    ensures '\n' !in RowLine(cs, i, w)
  {
    var ws := Flatten(RowWords(cs, i, w));
    RowLineIsWords(cs, i, w);
    RowWordsAreWords(cs, i, w);
    SplitOnSpaceOfJoin(ws);
    JoinWithout(ws, " ", '\n');
  }

  /** A written grid line is the words of its cells joined with spaces. */
  lemma RowLineIsWords(cs: seq<TileState>, i: nat, w: nat)
    requires w >= 1
    ensures |Flatten(RowWords(cs, i, w))| >= 1
    ensures RowLine(cs, i, w) == Join(Flatten(RowWords(cs, i, w)), " ")
  {
    var ws := RowWords(cs, i, w);
    forall j | 0 <= j < w ensures RowCells(cs, i, w)[j] == Join(ws[j], " ") {
      CellTextIsWords(cs, Position(i, j));
    }
    assert RowCells(cs, i, w) == seq(w, j requires 0 <= j < w => Join(ws[j], " "));
    JoinOfJoins(ws, " ");
  }

  /** Every word of a written grid line is non-empty and holds neither space nor line feed. */
  lemma RowWordsAreWords(cs: seq<TileState>, i: nat, w: nat)
    ensures forall m :: 0 <= m < |Flatten(RowWords(cs, i, w))| ==> IsWord(Flatten(RowWords(cs, i, w))[m])
  {
    var ws := RowWords(cs, i, w);
    forall j, m | 0 <= j < w && 0 <= m < |ws[j]| ensures IsWord(ws[j][m]) {
      CellWordsAreWords(cs, Position(i, j));
    }
    FlattenWords(ws);
  }

  // ------------------------------------------------------ reading a line

  lemma {:induction false} ParseTokensConcat(st: RowState, a: seq<string>, b: seq<string>, shape: Option<Shape>, line: nat)
    ensures ParseTokens(st, a + b, shape, line) ==
      match ParseTokens(st, a, shape, line)
      case Failure(e) => Failure(e)
      case Success(st') => ParseTokens(st', b, shape, line)
    decreases |a|
  {
    if a == [] {
      assert a + b == b;
    } else {
      assert (a + b)[0] == a[0];
      assert (a + b)[1..] == a[1..] + b;
      match ParseToken(st, a[0], shape, line)
      case Failure(_) =>
      case Success(st') => ParseTokensConcat(st', a[1..], b, shape, line);
    }
  }

  /** A side number read adds that side to the tile being read. */
  lemma NumberToken(st: RowState, k: nat, shape: Option<Shape>, line: nat)
    requires k <= IntMax
    ensures ParseToken(st, NatToString(k), shape, line) == Success(st.(sides := st.sides + [k]))
  {
    ParseIntOfNatToString(k);
    NumberIsWord(k);
  }

  /** One token read after another. */
  lemma ParseTokensCons(st: RowState, tokens: seq<string>, shape: Option<Shape>, line: nat, st': RowState)
    requires tokens != [] && ParseToken(st, tokens[0], shape, line) == Success(st')
    ensures ParseTokens(st, tokens, shape, line) == ParseTokens(st', tokens[1..], shape, line)
  {
  }

  /** The words of numbers: the first, then the others. */
  lemma NumberWordsFront(ks: seq<nat>)
    requires ks != []
    ensures NumberWords(ks) == [NatToString(ks[0])] + NumberWords(ks[1..])
  {
    assert NumberWords(ks)[1..] == NumberWords(ks[1..]);
  }

  /** Sides appended one, then the others. */
  lemma SidesFront(sides: seq<int>, ks: seq<nat>)
    requires ks != []
    ensures sides + [ks[0]] + ks[1..] == sides + ks
  {
    assert [ks[0]] + ks[1..] == ks;
  }

  /** A first token read, then the others. */
  lemma ParseTokensFront(st: RowState, token: string, rest: seq<string>, shape: Option<Shape>, line: nat, st': RowState)
    requires ParseToken(st, token, shape, line) == Success(st')
    ensures ParseTokens(st, [token] + rest, shape, line) == ParseTokens(st', rest, shape, line)
  {
    assert ([token] + rest)[1..] == rest;
  }

  /** Side numbers are collected, in order, for the tile being read. */
  lemma {:induction false} ParseNumbers(st: RowState, ks: seq<nat>, shape: Option<Shape>, line: nat)
    requires forall m :: 0 <= m < |ks| ==> ks[m] <= IntMax
    ensures ParseTokens(st, NumberWords(ks), shape, line) == Success(st.(sides := st.sides + ks))
    decreases |ks|
  {
    if ks == [] {
      assert st.sides + ks == st.sides;
    } else {
      ParseNumbers(st.(sides := st.sides + [ks[0]]), ks[1..], shape, line);
      ParseNumbersStep(st, ks, shape, line);
    }
  }

  /** The step of `ParseNumbers`: the first number, then the others. */
  lemma ParseNumbersStep(st: RowState, ks: seq<nat>, shape: Option<Shape>, line: nat)
    requires ks != [] && forall m :: 0 <= m < |ks| ==> ks[m] <= IntMax
    requires var st' := st.(sides := st.sides + [ks[0]]);
      ParseTokens(st', NumberWords(ks[1..]), shape, line) == Success(st'.(sides := st'.sides + ks[1..]))
    ensures ParseTokens(st, NumberWords(ks), shape, line) == Success(st.(sides := st.sides + ks))
  {
    var st' := st.(sides := st.sides + [ks[0]]);
    NumberWordsFront(ks);
    NumberToken(st, ks[0], shape, line);
    ParseTokensFront(st, NatToString(ks[0]), NumberWords(ks[1..]), shape, line, st');
    SidesFront(st.sides, ks);
  }

  /** The tile of cell `p` is built without failure, and it is the tile read back. */
  lemma BuildCell(cs: seq<TileState>, s: Shape, p: Position)
    requires ShapedAs(cs, s)
    ensures BuildTile(Some(s), p, Some(CellComponent(cs, p)), CellSides(cs, p)) == Success(Reloaded(cs, s, p))
  {
    CellSidesSmall(cs, s, p);
    BuildTileOf(s, p, CellComponent(cs, p), CellSides(cs, p));
  }

  /** A tile whose sides all exist on its shape is built. */
  lemma BuildTileOf(s: Shape, p: Position, c: Component, sides: seq<nat>)
    requires forall m :: 0 <= m < |sides| ==> 0 <= sides[m] < Sides(s)
    ensures BuildTile(Some(s), p, Some(c), sides) == Success(NewTile(s, p, c).(border := BorderWith(Sides(s), sides)))
  {
  }

  /** Where the reading of grid line `i` stands once the words of cell `j` are read. */
  function RowStateAt(cs: seq<TileState>, s: Shape, i: nat, j: nat): RowState {
    var p := Position(i, j);
    RowState(j, Some(CellComponent(cs, p)), CellSides(cs, p), ReloadedRow(cs, s, i, j))
  }

  /** Every side written for a cell exists on the shape `s`. */
  lemma CellSidesSmall(cs: seq<TileState>, s: Shape, p: Position)
    requires ShapedAs(cs, s)
    ensures forall m :: 0 <= m < |CellSides(cs, p)| ==> CellSides(cs, p)[m] < Sides(s) <= IntMax
  {
    var ks := CellSides(cs, p);
    match IndexAt(cs, p)
    case None =>
    case Some(k) =>
      assert WellFormed(cs[k]);
      assert forall m :: 0 <= m < |ks| ==> ks[m] in ks;
  }

  /** A marker after a component finishes that tile and starts the next. */
  lemma MarkerToken(st: RowState, token: string, shape: Option<Shape>, line: nat, t: TileState)
    requires IsMarker(token) && st.current.Some?
    requires BuildTile(shape, Position(line, st.column), st.current, st.sides) == Success(t)
    ensures ParseToken(st, token, shape, line) == Success(RowState(st.column + 1, Some(MarkerComponent(token)), [], st.built + [t]))
  {
  }

  /** The code of cell `j` finishes tile `j - 1` and starts tile `j`. */
  lemma MarkerStep(cs: seq<TileState>, s: Shape, i: nat, j: nat)
    requires ShapedAs(cs, s) && j >= 1
    ensures ParseToken(RowStateAt(cs, s, i, j - 1), Diminutive(CellComponent(cs, Position(i, j))), Some(s), i)
      == Success(RowState(j, Some(CellComponent(cs, Position(i, j))), [], ReloadedRow(cs, s, i, j)))
  {
    var c := CellComponent(cs, Position(i, j));
    BuildCell(cs, s, Position(i, j - 1));
    DiminutiveIsMarker(c);
    MarkerToken(RowStateAt(cs, s, i, j - 1), Diminutive(c), Some(s), i, Reloaded(cs, s, Position(i, j - 1)));
    assert ReloadedRow(cs, s, i, j - 1) + [Reloaded(cs, s, Position(i, j - 1))] == ReloadedRow(cs, s, i, j);
  }

  /** The words of a cell: its code, then its side numbers. */
  lemma CellTokens(st: RowState, c: Component, ks: seq<nat>, shape: Option<Shape>, line: nat, st1: RowState)
    requires ParseToken(st, Diminutive(c), shape, line) == Success(st1)
    requires forall m :: 0 <= m < |ks| ==> ks[m] <= IntMax
    ensures ParseTokens(st, [Diminutive(c)] + NumberWords(ks), shape, line) == Success(st1.(sides := st1.sides + ks))
  {
    var words := [Diminutive(c)] + NumberWords(ks);
    ParseTokensCons(st, words, shape, line, st1);
    assert words[1..] == NumberWords(ks);
    ParseNumbers(st1, ks, shape, line);
  }

  /** The words of the cell after `j - 1` finish tile `j - 1` and read cell `j`. */
  lemma CellStep(cs: seq<TileState>, s: Shape, i: nat, j: nat)
    requires ShapedAs(cs, s) && j >= 1
    ensures ParseTokens(RowStateAt(cs, s, i, j - 1), CellWords(cs, Position(i, j)), Some(s), i) == Success(RowStateAt(cs, s, i, j))
  {
    var p := Position(i, j);
    var c := CellComponent(cs, p);
    var ks := CellSides(cs, p);
    var st1 := RowState(j, Some(c), [], ReloadedRow(cs, s, i, j));
    MarkerStep(cs, s, i, j);
    CellSidesSmall(cs, s, p);
    CellTokens(RowStateAt(cs, s, i, j - 1), c, ks, Some(s), i, st1);
    assert [] + ks == ks;
  }

  /** The marker of the first cell of a line opens its first tile. */
  lemma FirstMarker(c: Component, s: Shape, i: nat)
    ensures ParseToken(RowStart, Diminutive(c), Some(s), i) == Success(RowState(0, Some(c), [], []))
  {
    DiminutiveIsMarker(c);
  }

  /** The words of the first cell of a line start the reading of that line. */
  lemma FirstCell(cs: seq<TileState>, s: Shape, i: nat)
    requires ShapedAs(cs, s)
    ensures ParseTokens(RowStart, CellWords(cs, Position(i, 0)), Some(s), i) == Success(RowStateAt(cs, s, i, 0))
  {
    var p := Position(i, 0);
    var c := CellComponent(cs, p);
    var ks := CellSides(cs, p);
    var st1 := RowState(0, Some(c), [], []);
    FirstMarker(c, s, i);
    CellSidesSmall(cs, s, p);
    CellTokens(RowStart, c, ks, Some(s), i, st1);
    assert [] + ks == ks;
    assert ReloadedRow(cs, s, i, 0) == [];
  }

  /** The words of the first `j + 1` cells of line `i` bring the reading to cell `j`. */
  lemma {:induction false} RowPrefix(cs: seq<TileState>, s: Shape, i: nat, w: nat, j: nat)
    requires ShapedAs(cs, s) && j < w
    ensures ParseTokens(RowStart, Flatten(RowWords(cs, i, w)[..j + 1]), Some(s), i) == Success(RowStateAt(cs, s, i, j))
    decreases j
  {
    var ws := RowWords(cs, i, w);
    if j == 0 {
      assert ws[..1][..0] == [];
      assert Flatten(ws[..1]) == ws[0];
      FirstCell(cs, s, i);
    } else {
      RowPrefix(cs, s, i, w, j - 1);
      assert ws[..j + 1][..j] == ws[..j];
      assert Flatten(ws[..j + 1]) == Flatten(ws[..j]) + ws[j];
      ParseTokensConcat(RowStart, Flatten(ws[..j]), ws[j], Some(s), i);
      CellStep(cs, s, i, j);
    }
  }

  /** A written grid line reads back as the tiles of that line. */
  lemma RowRead(cs: seq<TileState>, s: Shape, i: nat, w: nat)
    requires ShapedAs(cs, s) && w >= 1
    ensures ParseRow(RowLine(cs, i, w), Some(s), i) == Success(ReloadedRow(cs, s, i, w))
    ensures '\n' !in RowLine(cs, i, w)
  {
    RowTokens(cs, i, w);
    var ws := RowWords(cs, i, w);
    assert ws[..w] == ws;
    RowPrefix(cs, s, i, w, w - 1);
    ParseRowOf(RowLine(cs, i, w), Some(s), i, RowStateAt(cs, s, i, w - 1));
    BuildCell(cs, s, Position(i, w - 1));
    assert ReloadedRow(cs, s, i, w - 1) + [Reloaded(cs, s, Position(i, w - 1))] == ReloadedRow(cs, s, i, w);
  }

  /** The header is the size and the shape code joined by single spaces. */
  lemma HeaderWords(d: Size, s: Shape)
    ensures HeaderLine(d, s) == Join([NatToString(d.height), NatToString(d.width), FileIdentifier(s)], " ")
    ensures forall m :: 0 <= m < 3 ==> IsWord([NatToString(d.height), NatToString(d.width), FileIdentifier(s)][m])
  {
    var ts := [NatToString(d.height), NatToString(d.width), FileIdentifier(s)];
    assert ts[1..][1..] == [ts[2]];
    assert Join(ts[1..], " ") == ts[1] + " " + ts[2];
    NumberIsWord(d.height);
    NumberIsWord(d.width);
    assert IsWord(FileIdentifier(s));
  }

  /** The header reads back as the size and the shape written. */
  lemma HeaderRead(d: Size, s: Shape, acc: LevelData)
    requires d.height <= IntMax && d.width <= IntMax
    ensures ParseLine(acc, HeaderLine(d, s), 0) == Success(acc.(height := d.height, width := d.width, shape := Some(s)))
    ensures '\n' !in HeaderLine(d, s)
  {
    var ts := [NatToString(d.height), NatToString(d.width), FileIdentifier(s)];
    HeaderWords(d, s);
    SplitOnSpaceOfJoin(ts);
    ParseIntOfNatToString(d.height);
    ParseIntOfNatToString(d.width);
    ShapeOfFileIdentifier(s);
    JoinWithout(ts, " ", '\n');
  }

  // ------------------------------------------------------ reading the file

  /** The lines written for a valid circuit: the header, then one line per grid line. */
  lemma FileLinesOfValid(cs: seq<TileState>, s: Shape)
    requires ShapedAs(cs, s)
    ensures |FileLines(cs, s)| == Extent(cs).height + 1
    ensures FileLines(cs, s)[0] == HeaderLine(Extent(cs), s)
    ensures RowLines(FileLines(cs, s), cs, Extent(cs).width)
    ensures |FileLines(cs, s)| > 1 ==> Extent(cs).width >= 1
  {
    CollectedOfValid(cs);
    var lines := FileLines(cs, s);
    forall n | 1 <= n < |lines|
      ensures lines[n] == RowLine(cs, n - 1, Extent(cs).width)
    {
      FileLineAt(cs, s, n);
    }
  }

  /** Line `n` of the file, after the header, is grid line `n - 1`. */
  lemma FileLineAt(cs: seq<TileState>, s: Shape, n: nat)
    requires Valid(cs) && 1 <= n < |FileLines(cs, s)|
    ensures FileLines(cs, s)[n] == RowLine(cs, n - 1, Extent(cs).width)
  {
    CollectedOfValid(cs);
  }

  /** Reading a grid line adds its tiles. */
  lemma ParseLineOfRow(acc: LevelData, text: string, n: nat, row: seq<TileState>)
    requires n >= 1 && ParseRow(text, acc.shape, n - 1) == Success(row)
    ensures ParseLine(acc, text, n) == Success(acc.(tiles := acc.tiles + row))
  {
  }

  /** The tiles of the first `n` grid lines of a `h` by `w` grid, read into the level data. */
  function GridAt(cs: seq<TileState>, s: Shape, id: int, h: nat, w: nat, n: nat): LevelData {
    LevelData(h, w, id, Some(s), ReloadedGrid(cs, s, n, w))
  }

  /** Lines that hold, after the first, the grid lines of `cs`, `w` wide. */
  predicate RowLines(lines: seq<string>, cs: seq<TileState>, w: nat) {
    forall n :: 1 <= n < |lines| ==> lines[n] == RowLine(cs, n - 1, w)
  }

  /** Grid line `i + 1` adds row `i` to what was read before it. */
  lemma GridLineRead(cs: seq<TileState>, s: Shape, id: int, h: nat, w: nat, i: nat)
    requires ShapedAs(cs, s) && w >= 1
    ensures ParseLine(GridAt(cs, s, id, h, w, i), RowLine(cs, i, w), i + 1) == Success(GridAt(cs, s, id, h, w, i + 1))
  {
    var acc := GridAt(cs, s, id, h, w, i);
    RowRead(cs, s, i, w);
    ParseLineOfRow(acc, RowLine(cs, i, w), i + 1, ReloadedRow(cs, s, i, w));
  }

  /** Lines that hold, after the first, the grid lines of `cs`, all of whose tiles have shape `s`. */
  predicate GridLines(lines: seq<string>, cs: seq<TileState>, s: Shape, w: nat) {
    ShapedAs(cs, s) && (|lines| > 1 ==> w >= 1) && RowLines(lines, cs, w)
  }

  /** Reading grid line `n` takes the grid of the lines before it to the grid of the lines up to it. */
  lemma GridLineStep(lines: seq<string>, cs: seq<TileState>, s: Shape, id: int, h: nat, w: nat, n: nat)
    requires GridLines(lines, cs, s, w) && 1 <= n < |lines|
    ensures ParseFrom(lines, n, GridAt(cs, s, id, h, w, n - 1)) == ParseFrom(lines, n + 1, GridAt(cs, s, id, h, w, n))
  {
    assert lines[n] == RowLine(cs, n - 1, w);
    GridLineRead(cs, s, id, h, w, n - 1);
    ParseFromStep(lines, n, GridAt(cs, s, id, h, w, n - 1), GridAt(cs, s, id, h, w, n));
  }

  /** Line `k` takes `f` of the line before it to `f` of itself. */
  ghost predicate ReadsOn(lines: seq<string>, f: nat -> LevelData, k: nat)
    requires k >= 1
  {
    ParseFrom(lines, k, f(k - 1)) == ParseFrom(lines, k + 1, f(k))
  }

  /** Lines each of which takes `f` of the line before to `f` of itself read on to the last one. */
  lemma {:induction false} ParseChain(lines: seq<string>, f: nat -> LevelData, n: nat)
    requires 1 <= n <= |lines|
    requires forall k :: n <= k < |lines| ==> ReadsOn(lines, f, k)
    ensures ParseFrom(lines, n, f(n - 1)) == Success(f(|lines| - 1))
    decreases |lines| - n
  {
    if n < |lines| {
      assert ReadsOn(lines, f, n);
      ParseChain(lines, f, n + 1);
    } else {
      ParseFromEnd(lines, f(n - 1));
    }
  }

  /** The grids read after each line: `GridsOf(...)(k)` after line `k`. */
  function GridsOf(cs: seq<TileState>, s: Shape, id: int, h: nat, w: nat): nat -> LevelData {
    (k: nat) => GridAt(cs, s, id, h, w, k)
  }

  /** Every grid line takes the grid of the lines before it to the grid of the lines up to it. */
  lemma GridSteps(lines: seq<string>, cs: seq<TileState>, s: Shape, id: int, h: nat, w: nat)
    requires GridLines(lines, cs, s, w)
    ensures forall k :: 1 <= k < |lines| ==> ReadsOn(lines, GridsOf(cs, s, id, h, w), k)
  {
    var f := GridsOf(cs, s, id, h, w);
    forall k | 1 <= k < |lines|
      ensures ReadsOn(lines, f, k)
    {
      assert f(k - 1) == GridAt(cs, s, id, h, w, k - 1) && f(k) == GridAt(cs, s, id, h, w, k);
      GridLineStep(lines, cs, s, id, h, w, k);
    }
  }

  /** The lines after the header read the grid line by line. */
  lemma RowsRead(lines: seq<string>, cs: seq<TileState>, s: Shape, id: int, h: nat, w: nat)
    requires GridLines(lines, cs, s, w) && 1 <= |lines|
    ensures ParseFrom(lines, 1, GridAt(cs, s, id, h, w, 0)) == Success(GridAt(cs, s, id, h, w, |lines| - 1))
  {
    var f := GridsOf(cs, s, id, h, w);
    GridSteps(lines, cs, s, id, h, w);
    ParseChain(lines, f, 1);
    assert f(0) == GridAt(cs, s, id, h, w, 0) && f(|lines| - 1) == GridAt(cs, s, id, h, w, |lines| - 1);
  }

  /** No line holds a line feed. */
  lemma NoLineFeeds(lines: seq<string>, cs: seq<TileState>, d: Size, s: Shape)
    requires |lines| >= 1 && lines[0] == HeaderLine(d, s)
    requires RowLines(lines, cs, d.width) && (|lines| > 1 ==> d.width >= 1)
    ensures forall k :: 0 <= k < |lines| ==> '\n' !in lines[k]
  {
    HeaderHasNoLineFeed(d, s);
    forall k | 1 <= k < |lines| ensures '\n' !in lines[k] {
      RowHasNoLineFeed(cs, k - 1, d.width);
    }
  }

  /** A grid line holds no line feed. */
  lemma RowHasNoLineFeed(cs: seq<TileState>, i: nat, w: nat)
    requires w >= 1
    ensures '\n' !in RowLine(cs, i, w)
  {
    RowTokens(cs, i, w);
  }

  /** The header holds no line feed. */
  lemma HeaderHasNoLineFeed(d: Size, s: Shape)
    ensures '\n' !in HeaderLine(d, s)
  {
    HeaderWords(d, s);
    JoinWithout([NatToString(d.height), NatToString(d.width), FileIdentifier(s)], " ", '\n');
  }

  /**
   * Reading the file written for a valid circuit of one shape gives its
   * size, its shape, the identifier in the file name, and its grid read back
   * line by line.
   */
  lemma ReadWritten(cs: seq<TileState>, s: Shape, path: string, id: int)
    requires ShapedAs(cs, s)
    requires Extent(cs).height <= IntMax && Extent(cs).width <= IntMax
    requires IdFromFileName(path) == Some(id)
    ensures
      var d := Extent(cs);
      ReadLevel(Some(Lines(FileContent(cs, s))), path)
        == Success(LevelData(d.height, d.width, id, Some(s), ReloadedGrid(cs, s, d.height, d.width)))
  {
    FileLinesOfValid(cs, s);
    var d := Extent(cs);
    var lines := FileLines(cs, s);
    NoLineFeeds(lines, cs, d, s);
    LinesOfUnlines(lines);
    var acc := LevelData(0, 0, id, None, []);
    HeaderRead(d, s, acc);
    ParseFromStep(lines, 0, acc, GridAt(cs, s, id, d.height, d.width, 0));
    assert GridLines(lines, cs, s, d.width);
    RowsRead(lines, cs, s, id, d.height, d.width);
  }
}
