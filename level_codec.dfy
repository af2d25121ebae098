/**
 * The text of a level file (`level<id>.nrg`) and how it is read back.
 *
 * The first line is `<height> <width> <shape code>`; each following line is
 * one line of the grid, its cells separated by single spaces, a cell being
 * the code of a component followed by the numbers of its connected sides (a
 * lone `.` for a position without tile). Reading works token by token: each
 * component code starts a new tile in the next column, each number connects
 * a side of the tile being read.
 */
module LevelCodec {
  import opened Wrappers
  import opened Text
  import opened TileShapes
  import opened Components
  import opened Positions
  import opened TileStates
  import opened CircuitModel

  /**
   * `LevelNotFound`: the file is missing or unreadable (`fromFile` returns
   * `null`). `MalformedLevelFile`: anything that makes the reading throw
   * (the game then stops).
   */
  datatype LevelFileError = LevelNotFound | MalformedLevelFile

  /** What a level configuration holds: size, identifier, shape (absent when the header names none) and tiles. */
  datatype LevelData = LevelData(height: int, width: int, id: int, shape: Option<Shape>, tiles: seq<TileState>)

  // ---------------------------------------------------------------- writing

  /** The cell written for position `p`: the tile there, or `.` when there is none. */
  function CellText(cs: seq<TileState>, p: Position): string {
    match IndexAt(cs, p)
    case None => "."
    case Some(k) => LevelRep(cs[k])
  }

  /** The cells of line `i` of a grid `w` wide. */
  function RowCells(cs: seq<TileState>, i: nat, w: nat): (r: seq<string>)
    ensures |r| == w
  {
    seq(w, j requires 0 <= j < w => CellText(cs, Position(i, j)))
  }

  /** Line `i` of the grid as written: its cells separated by single spaces. */
  function RowLine(cs: seq<TileState>, i: nat, w: nat): string {
    Join(RowCells(cs, i, w), " ")
  }

  /** The lines of a grid `h` high and `w` wide. */
  function GridText(cs: seq<TileState>, h: nat, w: nat): (r: seq<string>)
    ensures |r| == h && forall i :: 0 <= i < h ==> r[i] == RowLine(cs, i, w)
  {
    seq(h, i requires 0 <= i < h => RowLine(cs, i, w))
  }

  /** The first line of a level file. */
  function HeaderLine(d: Size, s: Shape): string {
    NatToString(d.height) + " " + NatToString(d.width) + " " + FileIdentifier(s)
  }

  /**
   * The lines `toFileContent` writes for the tiles `ts` and the shape `s`: the
   * tiles are first gathered into a circuit with `addTile` (which drops a
   * tile whose position is taken), whose dimension gives the header, then
   * every position of the grid is written line by line.
   */
  function FileLines(ts: seq<TileState>, s: Shape): (r: seq<string>)
    ensures |r| == Extent(Collected(ts)).height + 1
  {
    var c := Collected(ts);
    var d := Extent(c);
    [HeaderLine(d, s)] + GridText(c, d.height, d.width)
  }

  /** The text of the level file: each line ended by a line feed. */
  function FileContent(ts: seq<TileState>, s: Shape): string {
    Unlines(FileLines(ts, s))
  }

  // ---------------------------------------------------------------- reading

  /** The tokens that start a new tile. */
  predicate IsMarker(token: string) {
    token == "." || token == "L" || token == "S" || token == "W"
  }

  /** The component a marker names. */
  function MarkerComponent(token: string): (c: Component)
    requires IsMarker(token)
    ensures Diminutive(c) == token
  {
    FromDiminutive(token).value
  }

  /** A border of `n` sides on which exactly the sides listed in `sides` are connected. */
  function BorderWith(n: nat, sides: seq<int>): (b: seq<bool>)
    ensures |b| == n
    ensures forall k :: 0 <= k < n ==> (b[k] <==> k in sides)
  {
    seq(n, k requires 0 <= k < n => k in sides)
  }

  /**
   * `Tile.of` with the shape of the header and the component read, then
   * `connect` of each side read. It fails when the header named no shape or
   * no component was read, or a side does not exist on the shape.
   */
  function BuildTile(shape: Option<Shape>, p: Position, c: Option<Component>, sides: seq<int>): (r: Result<TileState, LevelFileError>)
    ensures r.Success? <==> shape.Some? && c.Some? && forall m :: 0 <= m < |sides| ==> 0 <= sides[m] < Sides(shape.value)
    ensures r.Failure? ==> r.error == MalformedLevelFile
    ensures r.Success? ==>
      && WellFormed(r.value) && r.value.shape == shape.value && r.value.position == p
      && r.value.component == c.value && (r.value.powered <==> c.value == Source)
      && forall k :: 0 <= k < |r.value.border| ==> (r.value.border[k] <==> k in sides)
  {
    if shape.None? || c.None? then Failure(MalformedLevelFile)
    else if exists m :: 0 <= m < |sides| && !(0 <= sides[m] < Sides(shape.value)) then Failure(MalformedLevelFile)
    else Success(NewTile(shape.value, p, c.value).(border := BorderWith(Sides(shape.value), sides)))
  }

  /**
   * Where the reading of one grid line stands: the column of the tile being
   * read, its component (none before the first marker), the sides read for
   * it, and the tiles already finished.
   */
  datatype RowState = RowState(column: nat, current: Option<Component>, sides: seq<int>, built: seq<TileState>)

  /** The state before the first token of a line. */
  const RowStart: RowState := RowState(0, None, [], [])

  /**
   * One token of grid line `line`: a marker finishes the tile being read (if
   * any) and starts the next; any other token must be a number, a side of the
   * tile being read. Sides read before the first marker are kept for the
   * first tile.
   */
  function ParseToken(st: RowState, token: string, shape: Option<Shape>, line: nat): (r: Result<RowState, LevelFileError>)
    ensures r.Failure? ==> r.error == MalformedLevelFile
  {
    if IsMarker(token) then
      if st.current.Some? then
        match BuildTile(shape, Position(line, st.column), st.current, st.sides)
        case Failure(e) => Failure(e)
        case Success(t) => Success(RowState(st.column + 1, Some(MarkerComponent(token)), [], st.built + [t]))
      else Success(st.(current := Some(MarkerComponent(token))))
    else
      match ParseInt(token)
      case None => Failure(MalformedLevelFile)
      case Some(v) => Success(st.(sides := st.sides + [v]))
  }

  /** The tokens read from left to right; the first failure ends the reading. */
  function ParseTokens(st: RowState, tokens: seq<string>, shape: Option<Shape>, line: nat): (r: Result<RowState, LevelFileError>)
    ensures r.Failure? ==> r.error == MalformedLevelFile
    decreases |tokens|
  {
    if tokens == [] then Success(st)
    else
      match ParseToken(st, tokens[0], shape, line)
      case Failure(e) => Failure(e)
      case Success(st') => ParseTokens(st', tokens[1..], shape, line)
  }

  /** Reading the tokens from the `i`-th on is reading the `i`-th, then the rest. */
  lemma ParseTokensStep(st: RowState, tokens: seq<string>, i: nat, shape: Option<Shape>, line: nat)
    requires i < |tokens|
    ensures ParseTokens(st, tokens[i..], shape, line)
      == match ParseToken(st, tokens[i], shape, line)
         case Failure(e) => Failure(e)
         case Success(st') => ParseTokens(st', tokens[i + 1..], shape, line)
  {
    assert tokens[i..][0] == tokens[i] && tokens[i..][1..] == tokens[i + 1..];
  }

  /** The tiles of grid line `line`, read from the text `text`: the tokens, then the last tile. */
  function ParseRow(text: string, shape: Option<Shape>, line: nat): (r: Result<seq<TileState>, LevelFileError>)
    ensures r.Failure? ==> r.error == MalformedLevelFile
  {
    match ParseTokens(RowStart, SplitOnSpace(text), shape, line)
    case Failure(e) => Failure(e)
    case Success(st) =>
      match BuildTile(shape, Position(line, st.column), st.current, st.sides)
      case Failure(e) => Failure(e)
      case Success(t) => Success(st.built + [t])
  }

  /** Reading a line is reading its tokens, then building the last tile. */
  lemma ParseRowOf(text: string, shape: Option<Shape>, line: nat, st: RowState)
    requires ParseTokens(RowStart, SplitOnSpace(text), shape, line) == Success(st)
    ensures ParseRow(text, shape, line) ==
      match BuildTile(shape, Position(line, st.column), st.current, st.sides)
      case Failure(e) => Failure(e)
      case Success(t) => Success(st.built + [t])
  {
  }

  /**
   * Line `n` of the file read into `acc`: the header sets the height, the
   * width and (for the codes `H` and `S`) the shape; every other line adds the
   * tiles of grid line `n - 1`.
   */
  function ParseLine(acc: LevelData, text: string, n: nat): (r: Result<LevelData, LevelFileError>)
    ensures r.Failure? ==> r.error == MalformedLevelFile
  {
    if n == 0 then ParseHeader(acc, text) else ParseGridLine(acc, text, n - 1)
  }

  /** The header line: the height, the width and, when known, the shape. */
  function ParseHeader(acc: LevelData, text: string): (r: Result<LevelData, LevelFileError>)
    ensures r.Failure? ==> r.error == MalformedLevelFile
  {
    var tokens := SplitOnSpace(text);
    if |tokens| < 3 then Failure(MalformedLevelFile)
    else
      match (ParseInt(tokens[0]), ParseInt(tokens[1]))
      case (Some(h), Some(w)) =>
        Success(acc.(height := h, width := w,
                     shape := if ShapeOfIdentifier(tokens[2]).Some? then ShapeOfIdentifier(tokens[2]) else acc.shape))
      case _ => Failure(MalformedLevelFile)
  }

  /** Grid line `i`: its tiles are added to those read so far. */
  function ParseGridLine(acc: LevelData, text: string, i: nat): (r: Result<LevelData, LevelFileError>)
    ensures r.Failure? ==> r.error == MalformedLevelFile
  {
    match ParseRow(text, acc.shape, i)
    case Failure(e) => Failure(e)
    case Success(row) => Success(acc.(tiles := acc.tiles + row))
  }

  /** The lines from `n` on, read into `acc`. */
  function ParseFrom(lines: seq<string>, n: nat, acc: LevelData): (r: Result<LevelData, LevelFileError>)
    ensures r.Failure? ==> r.error == MalformedLevelFile
    decreases |lines| - n
  {
    if n >= |lines| then Success(acc)
    else
      match ParseLine(acc, lines[n], n)
      case Failure(e) => Failure(e)
      case Success(a) => ParseFrom(lines, n + 1, a)
  }

  /** Reading from line `n` is reading line `n`, then the lines after it. */
  lemma ParseFromStep(lines: seq<string>, n: nat, acc: LevelData, next: LevelData)
    requires n < |lines| && ParseLine(acc, lines[n], n) == Success(next)
    ensures ParseFrom(lines, n, acc) == ParseFrom(lines, n + 1, next)
  {
  }

  /** Reading from line `n` on: line `n`, then, unless it failed, the lines after it. */
  lemma ParseFromNext(lines: seq<string>, n: nat, acc: LevelData)
    requires n < |lines|
    ensures ParseFrom(lines, n, acc) ==
      match ParseLine(acc, lines[n], n)
      case Failure(e) => Failure(e)
      case Success(a) => ParseFrom(lines, n + 1, a)
  {
  }

  /** Past the last line nothing more is read. */
  lemma ParseFromEnd(lines: seq<string>, acc: LevelData)
    ensures ParseFrom(lines, |lines|, acc) == Success(acc)
  {
  }

  /** The directories a level is saved to and the name of a level file, `level<id>.nrg`. */
  const PlayableLevelPathPrefix: string := "playable"
  const EditableLevelPathPrefix: string := "editable"
  const LevelFileBaseName: string := "level"
  const FileFormat: string := ".nrg"

  /** The path of the file of level `id` in the directory `dir`. */
  function LevelFilePath(dir: string, id: int): string {
    dir + "/" + LevelFileBaseName + IntToString(id) + FileFormat
  }

  /** The text after the last `/` of a path: the file name. */
  function FileName(path: string): (r: string)
    ensures '/' !in r
    decreases |path|
  {
    if path == [] then []
    else if path[|path| - 1] == '/' then []
    else FileName(path[..|path| - 1]) + [path[|path| - 1]]
  }

  /**
   * The identifier of a level, from the digits of the name of its file.
   * (The game takes every digit of the whole path; see `IdFromPath`.)
   */
  function IdFromFileName(path: string): Option<int> {
    ParseInt(DigitsOf(FileName(path)))
  }

  /** The identifier of a level as the game computes it: every digit of the path, directories included. */
  function IdFromPath(path: string): Option<int> {
    ParseInt(DigitsOf(path))
  }

  /**
   * `fromFile`: the lines of the file, or `None` when it cannot be read, and
   * the path it was read from. The identifier comes from the file name, the
   * rest from the lines; fields the file does not set keep their defaults
   * (zero, no shape, no tile).
   */
  function ReadLevel(file: Option<seq<string>>, path: string): (r: Result<LevelData, LevelFileError>)
    ensures file.None? ==> r == Failure(LevelNotFound)
    ensures r == Failure(LevelNotFound) ==> file.None?
  {
    match file
    case None => Failure(LevelNotFound)
    case Some(lines) =>
      match IdFromFileName(path)
      case None => Failure(MalformedLevelFile)
      case Some(id) => ParseFrom(lines, 0, LevelData(0, 0, id, None, []))
  }

  // ------------------------------------------------------------ identifiers

  /** The file name of a path ending in `/` then a name without `/` is that name. */
  lemma {:induction false} FileNameAfterSlash(dir: string, name: string)
    requires '/' !in name
    ensures FileName(dir + "/" + name) == name
    decreases |name|
  {
    var path := dir + "/" + name;
    if name != [] {
      var front := name[..|name| - 1];
      assert path[..|path| - 1] == dir + "/" + front;
      assert path[|path| - 1] == name[|name| - 1];
      FileNameAfterSlash(dir, front);
      assert front + [name[|name| - 1]] == name;
    }
  }

  /** The digits of a level file name are those of its identifier. */
  lemma DigitsOfLevelFileName(id: nat)
    ensures DigitsOf(LevelFileBaseName + NatToString(id) + FileFormat) == NatToString(id)
  {
    var n := NatToString(id);
    var front := LevelFileBaseName + n;
    DigitsOfConcat(front, FileFormat);
    DigitsOfConcat(LevelFileBaseName, n);
    DigitsOfDigits(n);
    DigitsOfNone(LevelFileBaseName);
    DigitsOfNone(FileFormat);
    assert DigitsOf(front) == n;
    assert DigitsOf(front + FileFormat) == n + "";
  }

  /** A level file name holds no `/`. */
  lemma LevelFileNameHasNoSlash(id: nat)
    ensures '/' !in LevelFileBaseName + NatToString(id) + FileFormat
  {
    var n := NatToString(id);
    assert forall k :: 0 <= k < |n| ==> n[k] != '/';
  }

  /**
   * The identifier taken from the name of the file of level `id` is `id`,
   * whatever directory the file is in.
   */
  lemma IdFromLevelFilePath(dir: string, id: nat)
    requires id <= IntMax
    ensures IdFromFileName(LevelFilePath(dir, id)) == Some(id)
  {
    var name := LevelFileBaseName + NatToString(id) + FileFormat;
    assert LevelFilePath(dir, id) == dir + "/" + name;
    DigitsOfLevelFileName(id);
    LevelFileNameHasNoSlash(id);
    FileNameAfterSlash(dir, name);
    ParseIntOfNatToString(id);
  }

  /**
   * Taking every digit of the path puts the digits of the directory in
   * front of those of the identifier.
   */
  lemma IdFromPathOfLevelFilePath(dir: string, id: nat)
    ensures IdFromPath(LevelFilePath(dir, id)) == ParseInt(DigitsOf(dir) + NatToString(id))
  {
    var name := LevelFileBaseName + NatToString(id) + FileFormat;
    var slashed := dir + "/";
    assert LevelFilePath(dir, id) == slashed + name;
    DigitsOfLevelFileName(id);
    DigitsOfConcat(slashed, name);
    DigitsOfConcat(dir, "/");
    assert DigitsOf("/") == "";
    assert DigitsOf(slashed) == DigitsOf(dir);
    assert DigitsOf(LevelFilePath(dir, id)) == DigitsOf(dir) + NatToString(id);
  }

  /**
   * Level 3 of a player whose home directory is `/home/u2` lies in
   * `/home/u2/.energy/playable` and is read back as level 23.
   */
  lemma IdFromPathCounterexample()
    ensures IdFromPath(LevelFilePath(CounterexampleDir(), 3)) == Some(23)
    ensures IdFromFileName(LevelFilePath(CounterexampleDir(), 3)) == Some(3)
  {
    var dir := CounterexampleDir();
    IdFromPathOfLevelFilePath(dir, 3);
    IdFromLevelFilePath(dir, 3);
    HomeDigits();
    ParseIntOfNatToString(23);
    assert NatToString(23) == NatToString(2) + NatToString(3);
  }

  /** The playable levels' directory of a player whose home directory is `/home/u2`. */
  function CounterexampleDir(): string {
    "/home/u2" + "/.energy" + "/" + PlayableLevelPathPrefix
  }

  /** The only digit of that directory is the `2` of the user name. */
  lemma HomeDigits()
    ensures DigitsOf(CounterexampleDir()) == "2"
  {
    DigitsOfConcat("/home/u2" + "/.energy" + "/", PlayableLevelPathPrefix);
    DigitsOfConcat("/home/u2" + "/.energy", "/");
    DigitsOfConcat("/home/u2", "/.energy");
    DigitsOfConcat("/home/u", "2");
  }
}
