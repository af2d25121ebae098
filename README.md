# Energy: a verified model of the game's core

Energy is a puzzle game. A level is a grid of square or hexagonal tiles. A tile
may carry a component: a source, a lamp or a Wi-Fi hotspot. Each of its sides
either carries a cable or does not. The player turns tiles, the game spreads
power from the sources along cables (and between hotspots), and the level is
solved once every lamp is lit. An editor changes tiles, adds or removes lines
and columns, and saves a solved level to the `level<id>.nrg` files that the
game reads back.

This project models the package `energy.model` in Dafny:

- `TileShapes`, `Components` and `Positions` model the enums and the grid geometry.
- `TileStates` holds the value of a tile. `Tiles.Tile` is the mutable tile, with its border array.
- `CircuitModel`, `CircuitEdits` and `CircuitResize` specify a circuit as a
  sequence of tile values: lookup, dimension, shape queries, neighbours,
  reachability of power, edits and resizing. The game's properties are proved
  there.
- `Circuits.Circuit` is the mutable circuit. Every method is proved to turn
  `Cells()` into the value the specification gives.
- `LevelCodec` is the text of a level file: how it is written and how it is read.
  `LevelConfigs.LevelConfig` is the loader and writer, with their loops.
  `LevelRoundTrip` proves that reading a written file gives the circuit back.
- `Levels.Level` is the level. It builds its circuit from a configuration,
  delegates to the circuit, and saves a solved level.
- `PropagationAsWritten` holds one turn of the propagation loop as written, with
  the neighbours given as a parameter, and the input on which the loop never
  stops (see Findings).
- `Text` models the Java string operations the file format uses (`split`,
  `Integer.parseInt`, `replaceAll`, line reading). `Wrappers` holds `Option` and `Result`.

All source paths below are under `app/src/main/java/energy/model/`.

## Model

| member | source | states |
|---|---|---|
| TileShapes.Sides | app/src/main/java/energy/model/TileShape.java:11-16 | every shape has an even number of sides, at least 4, so every side has an opposite |
| TileShapes.FileIdentifier | app/src/main/java/energy/model/TileShape.java:32-34 | the header code of a shape is a single character |
| TileShapes.ShapeOfFileIdentifier | app/src/main/java/energy/model/LevelConfig.java:97-100 | reading a shape's header code gives the shape back; any other code names no shape |
| TileShapes.OppositeInvolutive | app/src/main/java/energy/model/Tile.java:254-257 | the facing side `(i + len/2) % len` of the facing side is the side itself |
| Components.OnlySourceIsFixed | app/src/main/java/energy/model/Component.java:11-44 | a component cannot turn exactly when it is the source |
| Components.FromDiminutive | app/src/main/java/energy/model/Component.java:59-65 | a text is accepted only as the code of the component returned; otherwise the error names the unknown text |
| Components.FromDiminutiveOfDiminutive | app/src/main/java/energy/model/Component.java:50-65 | every component is read back from its own code, so no two components share a code |
| Positions.At | app/src/main/java/energy/model/Position.java:46-50 | a position is made exactly when both coordinates are non-negative, and it keeps them |
| Positions.AtOfPosition | app/src/main/java/energy/model/Position.java:46-50 | the coordinates of any position are accepted back |
| Positions.TouchingSide | app/src/main/java/energy/model/Position.java:149-177 | the result is -1 or a side of the shape; a side is returned only for the neighbour computed for that side |
| Positions.CandidateTouches | app/src/main/java/energy/model/Position.java:89-177 | every neighbour position on the grid touches along the side it was computed for |
| Positions.NotOwnNeighbor | app/src/main/java/energy/model/Position.java:143-145 | no position is its own neighbour |
| Positions.TouchingSideSymmetric | app/src/main/java/energy/model/Position.java:149-177 | if q touches p on side k, then p touches q on the side opposite k, for squares and for both column parities of hexagons |
| Positions.NeighborsAreAdjacent | app/src/main/java/energy/model/Position.java:143-177 | neighbours are at most one line and one column apart, and distinct |
| Positions.NeighborPositions | app/src/main/java/energy/model/Position.java:89-139 | the list holds exactly the neighbours on the grid, in side order, at most one per side |
| TileStates.NewTile | app/src/main/java/energy/model/Tile.java:29-37 | a new tile has no cable and is powered exactly when it is a source |
| TileStates.IndicesBelowAscending | app/src/main/java/energy/model/Tile.java:303-322 | the side indices are listed in ascending order |
| TileStates.WithSide | app/src/main/java/energy/model/Tile.java:271-285 | only side `i` changes, to the value given |
| TileStates.WithSides | app/src/main/java/energy/model/Tile.java:325-328 | exactly the listed sides are connected in addition to those already connected |
| TileStates.RotatedBorder | app/src/main/java/energy/model/Tile.java:222-228 | after a turn, each side has the flag of the side before it and side 0 has the flag of the last side |
| TileStates.RotatedBorderPermutes | app/src/main/java/energy/model/Tile.java:222-228 | a turn is a permutation of the flags |
| TileStates.RotatedTimesShift | app/src/main/java/energy/model/Tile.java:222-228 | `m` turns bring the last `m` flags to the front |
| TileStates.FullTurn | app/src/main/java/energy/model/Tile.java:222-228 | turning a tile once per side gives it back unchanged |
| TileStates.Rotated | app/src/main/java/energy/model/Tile.java:211-219 | a turn permutes the border and changes nothing else; a source does not turn |
| TileStates.WithPower | app/src/main/java/energy/model/Tile.java:237-239 | a source keeps its power flag; any other tile takes the new one; nothing else changes |
| TileStates.WithComponent | app/src/main/java/energy/model/Tile.java:114-116 | only the component changes |
| TileStates.Cleared | app/src/main/java/energy/model/Tile.java:264-267 | a cleared tile is empty; shape, position and power are kept |
| TileStates.SidesTextNext | app/src/main/java/energy/model/Tile.java:184-192 | scanning one more side appends " k" exactly when side k is connected |
| TileStates.SidesTextIsJoin | app/src/main/java/energy/model/Tile.java:175-192 | the code followed by the side list is the code and the side numbers joined by single spaces |
| TileStates.LevelRepIsWords | app/src/main/java/energy/model/Tile.java:175-182 | a cell is the component code, then the connected sides in ascending order, separated by single spaces |
| TileStates.LinkIsSymmetric | app/src/main/java/energy/model/Tile.java:244-257 | a is linked to b exactly when b is linked to a |
| TileStates.LinkedTilesTouch | app/src/main/java/energy/model/Tile.java:244-250 | linked tiles are neighbours, so no tile is linked to itself |
| CircuitModel.SameTileIsSameIndex | app/src/main/java/energy/model/Tile.java:135-142 | in a valid circuit two tiles are equal (same position and component) exactly when they are the same tile, so `contains` and `remove` find that tile |
| Tiles.Tile.SetComponent | app/src/main/java/energy/model/Tile.java:114-116 | the new state is `WithComponent` of the old one |
| Tiles.Tile.IsDisconnected | app/src/main/java/energy/model/Tile.java:293-300 | true exactly when no side is connected |
| Tiles.Tile.IsEmpty | app/src/main/java/energy/model/Tile.java:161-164 | true exactly when there is no cable and no component |
| Tiles.Tile.ConnectedSides | app/src/main/java/energy/model/Tile.java:303-311 | the count is the number of connected sides |
| Tiles.Tile.DisconnectedSidesAsIndices | app/src/main/java/energy/model/Tile.java:314-322 | exactly the disconnected sides, in strictly ascending order |
| Tiles.Tile.BorderLevelFileRepresentation | app/src/main/java/energy/model/Tile.java:184-192 | " k" for each connected side k, in ascending order |
| Tiles.Tile.LevelRep | app/src/main/java/energy/model/Tile.java:175-182 | the level-file cell of the tile's current state |
| Tiles.Tile.Rotate | app/src/main/java/energy/model/Tile.java:211-219 | the new state is `Rotated` of the old one |
| Tiles.Tile.RotateBorder | app/src/main/java/energy/model/Tile.java:222-228 | the array after the in-place shift is `RotatedBorder` of the old array |
| Tiles.Tile.SetIsPowered | app/src/main/java/energy/model/Tile.java:237-239 | the new state is `WithPower` of the old one |
| Tiles.Tile.Clear | app/src/main/java/energy/model/Tile.java:264-267 | the new state is `Cleared` of the old one |
| Tiles.Tile.ConnectOrDisconnectAt | app/src/main/java/energy/model/Tile.java:271-275 | side `i` is set, and the result says whether it changed |
| Tiles.Tile.Connect | app/src/main/java/energy/model/Tile.java:278-280 | side `i` is connected; the result is true exactly when it was not connected |
| Tiles.Tile.Disconnect | app/src/main/java/energy/model/Tile.java:283-285 | side `i` is disconnected; the result is true exactly when it was connected |
| Tiles.Tile.ConnectSides | app/src/main/java/energy/model/Tile.java:325-328 | the new border is `WithSides` of the old one |
| CircuitModel.IndexAt | app/src/main/java/energy/model/Circuit.java:236-244 | the first tile at `p`, or none exactly when no tile is there |
| CircuitModel.IndexAtUnique | app/src/main/java/energy/model/Circuit.java:236-244 | in a valid circuit the lookup of a tile's position finds that tile |
| CircuitModel.WithoutTileAtKeepsOthers | app/src/main/java/energy/model/Circuit.java:79-85 | removal keeps the circuit valid, empties `p` unless `p` is the origin, and keeps every other tile |
| CircuitModel.DropTile | app/src/main/java/energy/model/Circuit.java:84 | dropping one tile keeps exactly the tiles at other positions |
| CircuitModel.CollectedKeepsFirst | app/src/main/java/energy/model/Circuit.java:68-73 | adding tiles one by one gives a valid circuit that keeps, at each position, the first tile offered there |
| CircuitModel.CollectedOfValid | app/src/main/java/energy/model/Circuit.java:68-73 | adding the tiles of a valid circuit drops none of them |
| CircuitModel.Extent | app/src/main/java/energy/model/Circuit.java:154-166 | every tile fits in the dimension, some tile is on the last line and some on the last column, and the size is zero exactly for the empty circuit |
| CircuitModel.CountShape | app/src/main/java/energy/model/Circuit.java:96-102 | the count is zero exactly when no tile has the shape |
| CircuitModel.AllOfShape | app/src/main/java/energy/model/Circuit.java:104-149 | an error exactly when two tiles differ in shape; true exactly when there are tiles and all have the shape |
| CircuitModel.IndicesOf | app/src/main/java/energy/model/Circuit.java:247-266 | exactly the tiles carrying the component, each listed once |
| CircuitModel.NeighborsSymmetric | app/src/main/java/energy/model/Circuit.java:202-233 | j is a neighbour of k exactly when k is a neighbour of j (cables and hotspots both run both ways) |
| CircuitModel.NeighborsIgnorePower | app/src/main/java/energy/model/Circuit.java:202-233 | the power flags play no part in which tiles are neighbours |
| CircuitModel.BlackedOut | app/src/main/java/energy/model/Circuit.java:169-173 | afterwards only the sources that were on are on; nothing else changes |
| CircuitModel.Propagated | app/src/main/java/energy/model/Circuit.java:176-188 | a tile is on afterwards exactly when it was on, or it is not a source and power reaches it |
| CircuitModel.ReachableThrough | app/src/main/java/energy/model/Circuit.java:181-186 | power passes from a reached tile to every off neighbour that is not a source |
| CircuitModel.ClosedSetHoldsReachable | app/src/main/java/energy/model/Circuit.java:176-188 | a set that holds the sources and is closed under pushing holds every tile power reaches |
| CircuitModel.SpreadStart | app/src/main/java/energy/model/Circuit.java:177 | the loop invariant holds with every source on the stack |
| CircuitModel.SpreadStep | app/src/main/java/energy/model/Circuit.java:178-186 | one pop-light-push turn keeps the loop invariant |
| CircuitModel.PushedSpec | app/src/main/java/energy/model/Circuit.java:182-186 | the pushes add exactly the listed neighbours that are off and are not sources, and never put a tile on the stack twice |
| CircuitModel.SpreadEnd | app/src/main/java/energy/model/Circuit.java:178 | once the stack is empty, the tiles switched on are exactly those power reaches |
| CircuitModel.PropagatedAfterBlackout | app/src/main/java/energy/model/Circuit.java:169-188 | after a blackout, a tile other than a source is lit exactly when a chain of links and hotspots joins it to a source |
| CircuitModel.PropagationIdempotent | app/src/main/java/energy/model/Circuit.java:176-188 | spreading power a second time changes nothing |
| CircuitModel.SolvedIffLampsConnected | app/src/main/java/energy/model/Circuit.java:270-277 | after a blackout and propagation, a level is solved exactly when it has tiles and every lamp is joined to a source |
| CircuitEdits.EditAtKeepsOthers | app/src/main/java/energy/model/Circuit.java:36-62 | an edit at `p` keeps the circuit valid and the grid the same, and changes no tile but the one at `p` |
| CircuitEdits.EditAtSameIndex | app/src/main/java/energy/model/Circuit.java:36-62 | after an edit the tile at `p` is found at the same index |
| CircuitEdits.SetSideUndone | app/src/main/java/energy/model/Circuit.java:36-51 | disconnecting a side that was just connected restores the circuit, and the reverse; an edit changes nothing exactly when there is no tile at `p` or the side already had that value |
| CircuitEdits.SetComponentOverrides | app/src/main/java/energy/model/Circuit.java:57-62 | a second component overrides the first, and putting back the old one restores the circuit |
| CircuitEdits.ClearIdempotent | app/src/main/java/energy/model/Circuit.java:309-317 | clearing twice is clearing once, and the cleared tile is written as `.` |
| CircuitEdits.RotateAtPermutesSides | app/src/main/java/energy/model/Circuit.java:191-199 | a turn connects or disconnects nothing, and a source is left as it was |
| CircuitEdits.ClearedAllIsBlank | app/src/main/java/energy/model/Circuit.java:302-306 | clearing every tile keeps the grid, every cell is written `.`, and clearing again changes nothing |
| CircuitEdits.RotatedTimesPermutes | app/src/main/java/energy/model/Circuit.java:294-296 | any number of turns keeps a tile's number of cables |
| CircuitEdits.ScrambledKeepsTiles | app/src/main/java/energy/model/Circuit.java:286-299 | random turns keep positions, shapes, components and the number of cables of every tile |
| CircuitEdits.ScrambleMovesLoneCable | app/src/main/java/energy/model/Circuit.java:290-296 | a tile with a single cable always has it moved, since the number of turns is between 1 and sides-1 |
| CircuitEdits.ScrambleKeepsBareTile | app/src/main/java/energy/model/Circuit.java:284-299 | a tile without a cable looks the same after the turns. So the comment at lines 284-285, which promises a state different from the initial one, does not always hold |
| CircuitEdits.ScrambleKeepsBareCircuit | app/src/main/java/energy/model/Circuit.java:284-299 | a circuit whose tiles carry no cable is unchanged by `randomRotations`, whatever the draws, although the comment at lines 284-285 promises a different state |
| CircuitResize.AddEmptyTilesSpec | app/src/main/java/energy/model/Circuit.java:337-343 | added tiles are new and empty and go after the old ones, the circuit stays valid, and every target is then occupied |
| CircuitResize.RemoveTilesSpec | app/src/main/java/energy/model/Circuit.java:339-345 | removal keeps the circuit valid and keeps exactly the tiles off the targets, plus the origin |
| CircuitResize.AddEmptyTilesAtFree | app/src/main/java/energy/model/Circuit.java:68-73 | distinct free targets each get a new empty tile, in order |
| CircuitResize.RemoveAddedTiles | app/src/main/java/energy/model/Circuit.java:79-85 | removing the tiles just added at free positions other than the origin restores the circuit |
| CircuitResize.LinesResized | app/src/main/java/energy/model/Circuit.java:319-349 | past its guards, `addOrRemoveLine` adds or removes exactly the line targets of each column, with the hexagonal odd-column offset |
| CircuitResize.ColumnsResized | app/src/main/java/energy/model/Circuit.java:361-387 | past its guards, `addOrRemoveColumn` adds or removes exactly the column targets of each line, skipping the last line of an odd-width hexagonal grid |
| CircuitResize.ResizedLinesKeep | app/src/main/java/energy/model/Circuit.java:319-349 | a line resize fails exactly on mixed shapes; otherwise the circuit stays valid, new tiles are empty and unpowered and go after the old ones, removal only drops tiles, and the origin tile stays |
| CircuitResize.ResizeEmptyIsNoOp | app/src/main/java/energy/model/Circuit.java:319-387 | adding or removing a line or a column leaves an empty circuit empty |
| CircuitResize.ResizedColumnsKeep | app/src/main/java/energy/model/Circuit.java:361-387 | the same guarantees for adding or removing a column |
| CircuitResize.SquareLineRoundTrip | app/src/main/java/energy/model/Circuit.java:319-357 | on a square grid, adding a line makes the grid one line higher, and removing a line then restores it |
| CircuitResize.SquareColumnRoundTrip | app/src/main/java/energy/model/Circuit.java:361-397 | on a square grid, adding a column makes the grid one column wider, and removing a column then restores it |
| CircuitResize.SquareLineAdded | app/src/main/java/energy/model/Circuit.java:334-348 | a new square line is the empty tiles under every column, all free |
| CircuitResize.SquareColumnAdded | app/src/main/java/energy/model/Circuit.java:376-386 | a new square column is the empty tiles right of every line, all free |
| Circuits.Circuit.Empty | app/src/main/java/energy/model/Circuit.java:21-30 | a new circuit is valid and has no tiles |
| Circuits.Circuit.IndexOfTileAt | app/src/main/java/energy/model/Circuit.java:236-244 | the loop finds the first tile at `p`, or reports none |
| Circuits.Circuit.GetTileAt | app/src/main/java/energy/model/Circuit.java:236-244 | the tile at `p`, or null exactly when there is none |
| Circuits.Circuit.AddTile | app/src/main/java/energy/model/Circuit.java:68-73 | the tile is appended exactly when its position is free, and the result says so |
| Circuits.Circuit.RemoveTile | app/src/main/java/energy/model/Circuit.java:79-85 | the tile at `p` is removed exactly when there is one and `p` is not the origin, and the result says so |
| Circuits.Circuit.Dimension | app/src/main/java/energy/model/Circuit.java:154-166 | the loop computes `Extent` |
| Circuits.Circuit.ShapeCounts | app/src/main/java/energy/model/Circuit.java:96-102 | the loop counts the tiles of each shape |
| Circuits.Circuit.AreAllHexagonalTiles | app/src/main/java/energy/model/Circuit.java:124-133 | an error on mixed shapes; otherwise true exactly when there are tiles and all are hexagons |
| Circuits.Circuit.AreAllSquaredTiles | app/src/main/java/energy/model/Circuit.java:140-149 | an error on mixed shapes; otherwise true exactly when there are tiles and all are squares |
| Circuits.Circuit.GetSources | app/src/main/java/energy/model/Circuit.java:247-255 | the sources, in list order |
| Circuits.Circuit.GetHotspots | app/src/main/java/energy/model/Circuit.java:258-266 | the hotspots, in list order |
| Circuits.Circuit.AllLampsArePoweredOn | app/src/main/java/energy/model/Circuit.java:270-277 | false as soon as a lamp is off; otherwise true exactly when there are tiles |
| Circuits.Circuit.ContainsLamp | app/src/main/java/energy/model/Circuit.java:400-404 | true exactly when some tile is a lamp |
| Circuits.Circuit.Blackout | app/src/main/java/energy/model/Circuit.java:169-173 | the new circuit is `BlackedOut` of the old one |
| Circuits.Circuit.TilesAround | app/src/main/java/energy/model/Circuit.java:207-215 | the tiles at the neighbour positions, each listed once |
| Circuits.Circuit.LinkedAmong | app/src/main/java/energy/model/Circuit.java:216-221 | exactly the listed tiles that are linked to the tile, each listed once |
| Circuits.Circuit.GetNeighbors | app/src/main/java/energy/model/Circuit.java:202-233 | exactly the neighbours (linked tiles, plus the other hotspots for a hotspot), each listed once |
| Circuits.Circuit.PushNeighbors | app/src/main/java/energy/model/Circuit.java:182-186 | the stack after the pushes is `Pushed` |
| Circuits.Circuit.ExploreNext | app/src/main/java/energy/model/Circuit.java:179-186 | one turn pops a tile not lit before, lights it and keeps the loop invariant |
| Circuits.Circuit.PropagateElectricity | app/src/main/java/energy/model/Circuit.java:176-188 | the loop ends, and the new circuit is `Propagated` of the old one (with the corrected push guard; see Findings) |
| Circuits.Circuit.ConnectSideOfTileAt | app/src/main/java/energy/model/Circuit.java:36-41 | side `index` of the tile at `p` is connected; the result is true exactly when the circuit changed |
| Circuits.Circuit.DisconnectSideOfTileAt | app/src/main/java/energy/model/Circuit.java:47-51 | side `index` of the tile at `p` is disconnected; the result is true exactly when the circuit changed |
| Circuits.Circuit.SetTileComponentTo | app/src/main/java/energy/model/Circuit.java:57-62 | the tile at `p` gets the component; the result is true exactly when there is a tile at `p` |
| Circuits.Circuit.ClearTileAt | app/src/main/java/energy/model/Circuit.java:309-317 | the tile at `p` is emptied; the result is true exactly when there is one |
| Circuits.Circuit.RotateTileAt | app/src/main/java/energy/model/Circuit.java:191-199 | the tile at `p` turns; the result is true exactly when there is a tile there and it can turn |
| Circuits.Circuit.Clear | app/src/main/java/energy/model/Circuit.java:302-306 | every tile is emptied |
| Circuits.Circuit.RandomRotations | app/src/main/java/energy/model/Circuit.java:286-299 | each tile that can turn is turned the drawn number of times |
| Circuits.Circuit.TurnTile | app/src/main/java/energy/model/Circuit.java:294-296 | the inner loop turns one tile `m` times |
| Circuits.Circuit.AddOrRemoveLine | app/src/main/java/energy/model/Circuit.java:319-349 | the circuit becomes `ResizedLines` of the old one, or the mixed-shape error is returned |
| Circuits.Circuit.AddLine | app/src/main/java/energy/model/Circuit.java:351-353 | a line resize with `add` set |
| Circuits.Circuit.RemoveLine | app/src/main/java/energy/model/Circuit.java:355-357 | a line resize with `add` unset |
| Circuits.Circuit.AddOrRemoveColumn | app/src/main/java/energy/model/Circuit.java:361-387 | the circuit becomes `ResizedColumns` of the old one, or the mixed-shape error is returned |
| Circuits.Circuit.AddColumn | app/src/main/java/energy/model/Circuit.java:390-392 | a column resize with `add` set |
| Circuits.Circuit.RemoveColumn | app/src/main/java/energy/model/Circuit.java:395-397 | a column resize with `add` unset |
| Text.NatToString | app/src/main/java/energy/model/LevelConfig.java:153-158 | the decimal text is non-empty, all digits, and denotes the number |
| Text.ParseInt | app/src/main/java/energy/model/LevelConfig.java:95-96 | `Integer.parseInt` accepts an optional `+` or `-` followed by at least one digit, and only when the value fits in an `int` |
| Text.ParseIntOfNatToString | app/src/main/java/energy/model/LevelConfig.java:95-96 | parsing the text of a number that fits in an `int` gives the number |
| Text.DigitsOf | app/src/main/java/energy/model/LevelConfig.java:86 | the digits of a text, in order |
| Text.FieldsOfJoin | app/src/main/java/energy/model/LevelConfig.java:91 | splitting at a separator undoes joining with it, when no piece holds it |
| Text.SplitOnSpaceOfJoin | app/src/main/java/energy/model/LevelConfig.java:91 | `split(" ")` of words joined by single spaces gives the words back |
| Text.LinesOfUnlines | app/src/main/java/energy/model/LevelConfig.java:76-78 | reading back the lines of written text gives those lines |
| LevelCodec.GridText | app/src/main/java/energy/model/LevelConfig.java:161-169 | one line per grid line, each holding the cells of that line |
| LevelCodec.FileLines | app/src/main/java/energy/model/LevelConfig.java:141-171 | the header line and then one line per line of the dimension |
| LevelCodec.BuildTile | app/src/main/java/energy/model/LevelConfig.java:109-113 | a tile is built exactly when the header named a shape, a component was read and every side exists; it is then a new tile with exactly the sides read connected |
| LevelCodec.ParseRowOf | app/src/main/java/energy/model/LevelConfig.java:101-132 | a grid line is its tokens read in order, then the last tile |
| LevelCodec.ParseFromNext | app/src/main/java/energy/model/LevelConfig.java:89-133 | the file is read line by line, and the first error stops the reading |
| LevelCodec.ReadLevel | app/src/main/java/energy/model/LevelConfig.java:70-139 | "not found" exactly when the file cannot be read; the identifier is that of the file name (see Left out) |
| LevelCodec.FileName | app/src/main/java/energy/model/LevelConfig.java:86 | the file name holds no `/` |
| LevelCodec.IdFromLevelFilePath | app/src/main/java/energy/model/LevelConfig.java:86 | the identifier read from the name of level `id`'s file is `id`, whatever the directory |
| LevelCodec.IdFromPathOfLevelFilePath | app/src/main/java/energy/model/LevelConfig.java:86 | with every digit of the path taken, the directory's digits come before the identifier's |
| LevelCodec.IdFromPathCounterexample | app/src/main/java/energy/model/LevelConfig.java:86 | level 3 saved under `/home/u2` is read back as level 23 (see Findings) |
| LevelConfigs.CircuitOf | app/src/main/java/energy/model/Level.java:42-45 | adding the configuration's tiles one by one gives the circuit `Collected` specifies |
| LevelConfigs.WriteGridLine | app/src/main/java/energy/model/LevelConfig.java:162-168 | the inner loop writes grid line `i` and its line feed |
| LevelConfigs.CellRep | app/src/main/java/energy/model/LevelConfig.java:163-164 | the cell is the tile's representation, or `.` when no tile is there |
| LevelConfigs.WriteGrid | app/src/main/java/energy/model/LevelConfig.java:153-169 | the text is the header and grid lines, each followed by a line feed |
| LevelConfigs.FileText | app/src/main/java/energy/model/LevelConfig.java:141-171 | the text is `FileContent` of the tiles, and the header holds their dimension |
| LevelConfigs.LevelConfig.FromLevel | app/src/main/java/energy/model/LevelConfig.java:51-68 | the configuration shares the circuit's tiles and holds its dimension, its identifier and the first tile's shape (square when there is none) |
| LevelConfigs.LevelConfig.NewTileWithSides | app/src/main/java/energy/model/LevelConfig.java:109-113 | the tile built and connected, or the error `BuildTile` gives |
| LevelConfigs.LevelConfig.ReadToken | app/src/main/java/energy/model/LevelConfig.java:106-124 | one token read: the new reading state or the error, as `ParseToken` gives |
| LevelConfigs.LevelConfig.ReadTokens | app/src/main/java/energy/model/LevelConfig.java:106-125 | the token loop ends in the state or the error that `ParseTokens` gives |
| LevelConfigs.LevelConfig.ReadRow | app/src/main/java/energy/model/LevelConfig.java:101-131 | the tiles of the grid line, as `ParseRow` gives, each newly made |
| LevelConfigs.LevelConfig.ReadHeader | app/src/main/java/energy/model/LevelConfig.java:94-100 | height, width and (for `H` or `S`) shape set as `ParseHeader` gives, or the error |
| LevelConfigs.LevelConfig.ReadGridLine | app/src/main/java/energy/model/LevelConfig.java:101-132 | the tiles of the line appended, as `ParseGridLine` gives, or the error |
| LevelConfigs.LevelConfig.ReadLine | app/src/main/java/energy/model/LevelConfig.java:90-132 | line `n` read, as `ParseLine` gives |
| LevelConfigs.LevelConfig.ReadLines | app/src/main/java/energy/model/LevelConfig.java:89-133 | the line loop ends with the configuration that `ParseFrom` gives, or the error |
| LevelConfigs.LevelConfig.FromFile | app/src/main/java/energy/model/LevelConfig.java:70-139 | a new configuration holding what `ReadLevel` gives, or its error, so the identifier is that of the file name (see Left out) |
| LevelConfigs.LevelConfig.ToFileContent | app/src/main/java/energy/model/LevelConfig.java:141-171 | the text is `FileContent` of the tiles; height and width are updated to the dimension, and nothing else changes |
| LevelConfigs.LevelConfig.Save | app/src/main/java/energy/model/LevelConfig.java:173-193 | the same text goes to `playable/level<id>.nrg` and to `editable/level<id>.nrg` under the install directory; the height and width become the dimension of the tiles, as `toFileContent` sets them |
| LevelRoundTrip.ReloadedIsWritten | app/src/main/java/energy/model/LevelConfig.java:101-171 | each position reads back as the tile written there with its power reset, or as an empty tile |
| LevelRoundTrip.RowRead | app/src/main/java/energy/model/LevelConfig.java:101-132 | reading a written grid line gives its tiles back |
| LevelRoundTrip.HeaderRead | app/src/main/java/energy/model/LevelConfig.java:94-100 | reading the written header gives the height, width and shape back |
| LevelRoundTrip.ReadWritten | app/src/main/java/energy/model/LevelConfig.java:70-171 | reading the file written for a one-shape circuit gives its dimension, its shape, the identifier of the file name and the full grid of its tiles |
| LevelRoundTrip.ReadWrittenAt | app/src/main/java/energy/model/LevelConfig.java:70-171 | after the round trip every grid position holds a tile: the one written (power reset) or a new empty one |
| Levels.OddBottomsSpec | app/src/main/java/energy/model/Level.java:50-52 | the removed positions are exactly the bottom cells of the odd columns |
| Levels.LoadedSpec | app/src/main/java/energy/model/Level.java:41-55 | loading fails exactly on mixed shapes; otherwise the circuit is valid and holds the collected tiles minus the odd-column bottoms of a hexagonal grid |
| Levels.TrimmedSpec | app/src/main/java/energy/model/Level.java:46-53 | the trim fails exactly on mixed shapes, and removes only the odd-column bottoms of a hexagonal grid |
| Levels.LoadReadWritten | app/src/main/java/energy/model/Level.java:41-55 | a hexagonal level written and loaded back has every grid cell but the odd-column bottoms, each holding the tile written or an empty one |
| Levels.LoadedHexagonal | app/src/main/java/energy/model/Level.java:46-53 | loading a valid hexagonal circuit removes exactly the odd-column bottoms |
| Levels.Level.From | app/src/main/java/energy/model/Level.java:29-36 | a negative identifier is refused, then a missing circuit; otherwise a new level holds both |
| Levels.Level.FromLevelConfig | app/src/main/java/energy/model/Level.java:41-55 | a new level with a new circuit holding `Loaded` of the configuration's tiles, or the mixed-shape error |
| Levels.Level.Trim | app/src/main/java/energy/model/Level.java:46-53 | the circuit becomes `Trimmed` of itself, or the error is returned |
| Levels.Level.TrimOddBottoms | app/src/main/java/energy/model/Level.java:50-52 | the loop removes the bottom tile of each odd column |
| Levels.Level.IsFinished | app/src/main/java/energy/model/Level.java:83-85 | true exactly when the circuit has tiles and every lamp is on |
| Levels.Level.RotateTileAt | app/src/main/java/energy/model/Level.java:78-80 | the circuit's turn of the tile at `p`, and its answer |
| Levels.Level.ConnectSideOfTileAt | app/src/main/java/energy/model/Level.java:100-103 | the circuit's connection of the side, and its answer |
| Levels.Level.DisconnectSideOfTileAt | app/src/main/java/energy/model/Level.java:105-108 | the circuit's disconnection of the side, and its answer |
| Levels.Level.SetTileComponentTo | app/src/main/java/energy/model/Level.java:111-114 | the circuit's change of component, and its answer |
| Levels.Level.ClearTileAt | app/src/main/java/energy/model/Level.java:133-135 | the circuit's clearing of the tile, and its answer |
| Levels.Level.RandomRotations | app/src/main/java/energy/model/Level.java:88-90 | the circuit's random turns |
| Levels.Level.Blackout | app/src/main/java/energy/model/Level.java:92-94 | the circuit's blackout |
| Levels.Level.PropagateElectricity | app/src/main/java/energy/model/Level.java:96-98 | the circuit's propagation |
| Levels.Level.ClearCircuit | app/src/main/java/energy/model/Level.java:127-129 | every tile of the circuit emptied |
| Levels.Level.AddOrRemoveLine | app/src/main/java/energy/model/Level.java:147-155 | the circuit's line resize |
| Levels.Level.AddOrRemoveColumn | app/src/main/java/energy/model/Level.java:137-145 | the circuit's column resize |
| Levels.Level.CircuitContainsLamp | app/src/main/java/energy/model/Level.java:157-160 | true exactly when the circuit holds a lamp |
| Levels.Level.Save | app/src/main/java/energy/model/Level.java:116-124 | a level is saved exactly when it is solved; the text then goes to the playable and the editable file of its identifier; otherwise nothing is written |
| PropagationAsWritten.GuardsAgree | app/src/main/java/energy/model/Circuit.java:182-186 | when every source is on, the push guard as written and the corrected one push the same tiles in the same order |
| PropagationAsWritten.StepsAgree | app/src/main/java/energy/model/Circuit.java:178-186 | when every source is on, a loop turn as written is the corrected turn, and every source stays on |
| PropagationAsWritten.TwoDarkSourcesLinked | app/src/main/java/energy/model/Circuit.java:202-233 | two linked sources whose flags are off form a valid circuit in which each is the other's only neighbour |
| PropagationAsWritten.TwoDarkSourcesLoopForever | app/src/main/java/energy/model/Circuit.java:176-188 | the loop as written returns to a stack it has already held, so it never ends |
| PropagationAsWritten.TwoDarkSourcesCorrected | app/src/main/java/energy/model/Circuit.java:176-188 | with the corrected guard the same circuit empties its stack in two turns |

## Left out

- Reading and writing files are not modelled. `fromFile` takes the file's lines, or none when the file cannot be read, as a parameter. `save` returns the paths and the text instead of creating and writing the files. `System.exit` after an exception is the error `MalformedLevelFile`, and `printStackTrace` is dropped.
- `randomRotations` draws from `java.util.Random`. The draws are the `turns` parameter, one per tile, each between 1 and the number of sides minus 1.
- Observers (`notifyObservers`, `addObserver`) are left out. They only call into the view.
- `hashCode`, `toString`, `Tile.angle` (a display value) and the `System.out.println` debugging lines of `addOrRemoveColumn` are left out. None of them affects the model's state.
- Trivial getters such as `getId`, `getCircuit`, `getTiles`, `getLine` and `isAt` are fields or expressions of the model, not separate members.
- Java `int` overflow is modelled only where text becomes a number (`Integer.parseInt`, which fails outside the `int` range). Dimensions and counters are unbounded. The round-trip lemmas require dimensions that fit in an `int`.
- The iteration order of `getNeighbors` is not modelled; its result is a duplicate-free list with the right members. So `propagateElectricity` is proved to switch on the right tiles, but the order of its pushes is not followed.
- Text.ParseInt: reads only the ASCII digits `0`-`9`. `Integer.parseInt` also reads any other Unicode decimal digit (such as `٣` or `３`), so the model reads only level files written in ASCII digits and reports `MalformedLevelFile` for the others.
- LevelCodec.ParseToken: a grid line with no component code at all (such as `1 2`) makes the game build a tile with a null component. The model reports `MalformedLevelFile` there instead. Side numbers before the first code (such as `1 L`) go to the first tile, as in the game.
- LevelCodec.ReadLevel: the identifier comes from the digits of the file name (`IdFromFileName`), the corrected behaviour of Findings. The game takes every digit of the whole path (`IdFromPath`), so where a directory name holds digits the game reads another identifier, or one where the model reports `MalformedLevelFile`. The two agree when the directories hold no digits (`LevelCodec.IdFromPathOfLevelFilePath`). The round-trip lemmas `LevelRoundTrip.ReadWritten`, `LevelRoundTrip.ReadWrittenAt` and `Levels.LoadReadWritten` use the same corrected identifier.
- LevelConfigs.LevelConfig.FromFile: takes the identifier from the file name, as `LevelCodec.ReadLevel` does, not from every digit of the path.
- Tiles.Tile.ConnectOrDisconnectAt, Tiles.Tile.Connect, Tiles.Tile.Disconnect and Tiles.Tile.ConnectSides require side indices within the border. The game throws `ArrayIndexOutOfBoundsException` for the others; that exception path is excluded by precondition.
- Circuits.Circuit.SetSideOfTileAt, Circuits.Circuit.ConnectSideOfTileAt, Circuits.Circuit.DisconnectSideOfTileAt, Levels.Level.ConnectSideOfTileAt and Levels.Level.DisconnectSideOfTileAt require `AppliesAt`: the side index exists on the tile at the position, if there is one. The game's `ArrayIndexOutOfBoundsException` is excluded by precondition.
- LevelConfigs.LevelConfig.ToFileContent and LevelConfigs.LevelConfig.Save require a shape. The game throws `NullPointerException` in `toFileContent` when there is none; that exception path is excluded by precondition.
- LevelConfigs.LevelConfig.ReadLines: the loader's contracts say what is read, not that the tiles it creates are fresh objects.
- Levels.Level.AddOrRemoveLine: `addLine`/`removeLine` are one method with a flag, as in `Circuit.addOrRemoveLine`. The same goes for Levels.Level.AddOrRemoveColumn.
- Circuits.Circuit.PropagateElectricity: this models the corrected loop, not the loop as written, which does not always end (see Findings). `PropagationAsWritten.GuardsAgree` shows the two agree whenever every source is on.

## Findings

| source | as written | input that shows it | evidently intended | confidence | as-written member | corrected member |
|---|---|---|---|---|---|---|
| app/src/main/java/energy/model/Circuit.java:182-186 | a neighbour is pushed when its power flag is off and it is not on the stack; sources are not excluded, yet a source ignores `setIsPowered(true)` | two square sources at (0,0) and (0,1) joined by a cable, both with the power flag off (reached by `Circuit.setTileComponentTo(SOURCE)` on two unpowered tiles and then `propagateElectricity`; in the editor, make the two tiles sources while they are not linked, then join them with a cable drag, which updates the model): the stack goes [0,1], [1], [0], [1], … for ever | sources, which all start on the stack, are never pushed, so the loop ends with the reachable tiles lit | not executed | PropagationAsWritten.TwoDarkSourcesLoopForever | Circuits.Circuit.PropagateElectricity |
| app/src/main/java/energy/model/LevelConfig.java:86 | the level's identifier is the number formed by every digit of the whole path, directories included | level 3 saved for a user whose home directory is `/home/u2`, read from `/home/u2/.energy/playable/level3.nrg`: identifier 23 | the digits of the file name only, so `level3.nrg` is level 3 | not executed | LevelCodec.IdFromPathCounterexample | LevelCodec.IdFromLevelFilePath |
