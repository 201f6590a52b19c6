# BSP dungeon generator: a Dafny model

This project models the core of a Unity dungeon generator. The generator works as follows:

1. **Partition.** `BSP` recursively cuts a rectangular map area into a binary tree of regions. A region is cut across its longer axis at a random point. Cutting stops when a region cannot hold two minimum rooms, or when the iteration limit is reached. A region that cannot hold even one room is dropped.
2. **Rooms.** `createSimpleRooms` puts one filled rectangular room on every leaf.
3. **Corridors.** `GenerateCorridors` joins every node to each of its children with an L-shaped corridor. The corridor goes along z first, then along x.
4. **Walls.** `CreateWalls` finds the wall cells around the resulting floor in two passes. The first pass looks in the four cardinal directions. The second looks in all eight directions and skips cells the first pass already found. Each wall cell gets a shape from a bitmask of its floor neighbours, looked up in the literal tables of `WallTypesCheck`.

Modules, one per source concept:

| module | file | contents |
|---|---|---|
| `Wrappers` | `wrappers.dfy` | `Option` |
| `Geometry` | `geometry.dfy` | grid cells, regions (`BoundsInt`), filled rectangles of cells, C#'s truncating `/ 2` (`Half`) |
| `Partition` | `partition.dfy` | `BSP`, `NoSpaceForRoom`, `CanDivide`, the two cut helpers, the tree |
| `Rooms` | `rooms.dfy` | the `Room` constructor |
| `Corridors` | `corridors.dfy` | the `Corridor` constructor and its two do-while legs |
| `WallTables` | `walltables.dfy` | the `WallType` labels and every lookup list of `WallTypesCheck`, entry for entry |
| `Walls` | `walls.dfy` | neighbour bitmasks (`Convert.ToInt32(s, 2)`), the two classifiers, `FindWalls`, `CreateWalls` |
| `Layout` | `layout.dfy` | `createSimpleRooms`, `GenerateCorridors`, `CreateRooms`, `GenerateDungeon` |

Randomness and the engine are replaced by parameters:

- **Cut draws.** `cut(r)` is the cut drawn for region `r`. `ValidCuts` says it lies in `[1, size)` like `Random.Range(1, size)`.
- **Room-size draws.** `sizeDraw(r)` is the pair of size draws for a leaf. `ValidSizeDraws` says each is what `Random.Range(minSizeOfRoom, size - offset)` can return.
- **Region centers.** `center(r)` is the grid cell of the region's center, which the source gets through `BoundsInt.center` and the tilemap's `WorldToCell`. `MiddleCenters` states the unit-grid case, `min + size / 2`, which some lemmas assume.
- **`IterationsForBSP`.** The source's float is an integer bound here. It is only compared with an integer counter, so its ceiling behaves the same.

The source's `HashSet`s of rooms, corridors and tiles are sequences here, in the order the recursion builds them, or sets of cells. A C# `/ 2` on a possibly negative `int` is `Geometry.Half`, which truncates toward zero.

### Behaviour worth knowing

- **The corridor's start row.** A corridor moves before it stamps. When the z values differ, the z leg never stamps row `start.z` (`Corridors.StartRowSkipped`, `Corridors.StraightCorridorExample`). Likewise, the x leg skips column `start.x`.
- **Leaves do not always cover the parent.** A split node's child is dropped whenever it cannot hold a room, so both children can vanish (`Partition.SplitCanLoseBothChildren`). When both children survive, they cover their parent (`Partition.Partitioned`). The leaves lie inside the root and never overlap (`Partition.LeavesPartitionRoot`).
- **The offset is not a margin.** A room is only guaranteed to stay inside its leaf. With offset 2 it can come within one cell of the leaf's edge (`Layout.RoomReachesWithinOffset`).
- **The ends of a three-cell line.** The cardinal tables give the two ends of a straight line of three floor cells `Left` and `Right` side walls, not corner labels (`Walls.LineLeftWall`, `Walls.LineRightWall`).

## Model

Paths are relative to the repository root.

| member | source | states |
|---|---|---|
| Partition.NoSpaceForRoom | Assets/Scripts/DungeonGenerator/DungeonGenerator.cs:330-336 | A region has no space exactly when no room of at least the minimum size, plus the offset, fits in it on both axes. |
| Partition.CanDivide | Assets/Scripts/DungeonGenerator/DungeonGenerator.cs:338-352 | A divisible region is below the iteration limit. Under a sane configuration it also has space for a room and is at least 2 long on its cut axis. |
| Partition.Halves | Assets/Scripts/DungeonGenerator/DungeonGenerator.cs:123-152 | For a cut strictly inside the cut axis, both halves lie inside the parent, do not overlap, and together cover it. |
| Partition.BSP | Assets/Scripts/DungeonGenerator/DungeonGenerator.cs:106-161 | No tree comes back exactly when `NoSpaceForRoom` holds. The tree's root is the input region. An undividable region that fits comes back as a bare leaf. Every node fits a room. The height is at most the remaining iterations. A child is present only when the region was divisible, and exactly when its half has space for a room. Its region is that half of the cut at `cut(region)`. With valid cuts and a sane configuration, every child lies inside its parent, and siblings are disjoint and together cover their parent. |
| Partition.HalvesPartition | Assets/Scripts/DungeonGenerator/DungeonGenerator.cs:123-152 | For a cut in `[1, size)`, both halves have positive length on the cut axis and their lengths sum to the parent's. The other axis is unchanged. The halves lie inside the parent, are disjoint, and together cover it. |
| Partition.DivisibleCutAxis | Assets/Scripts/DungeonGenerator/DungeonGenerator.cs:338-352 | With `minSizeOfRoom + offset >= 1`, a divisible region is at least 2 long on the axis that gets cut, so the cut range is non-empty. |
| Partition.LeavesNonEmpty | Assets/Scripts/DungeonGenerator/DungeonGenerator.cs:196-221 | Every tree has at least one leaf, so `createSimpleRooms` makes at least one room for any tree. |
| Partition.LeavesPartitionRoot | Assets/Scripts/DungeonGenerator/DungeonGenerator.cs:156-158 | In a partitioned tree every leaf lies inside the root region and any two leaves are disjoint. |
| Partition.TooSmallRegionYieldsNothing | Assets/Scripts/DungeonGenerator/DungeonGenerator.cs:330-336 | A 5 by 5 region with a 6 by 6 minimum room has no space, and `BSP` returns nothing for it. |
| Partition.SplitCanLoseBothChildren | Assets/Scripts/DungeonGenerator/DungeonGenerator.cs:114-158 | A 12 by 12 region with minimum room 10 by 1 and offset 1 is divisible. After a cut at 6, both halves are dropped and the node is left childless. |
| Geometry.Half | Assets/Scripts/DungeonGenerator/Room.cs:24-25 | C#'s `/ 2` truncates toward zero. For n >= 0 the result h satisfies 0 <= 2h <= n. For n < 0 it satisfies n <= 2h <= 0. In both cases n - 2h is -1, 0 or 1. |
| Rooms.NewRoom | Assets/Scripts/DungeonGenerator/Room.cs:18-26 | The nested loops store the center and size unchanged. They build exactly the cells with y = 0 within `size / 2` (truncated) of the center on x and on z, bounds included. |
| Rooms.RoomCardinality | Assets/Scripts/DungeonGenerator/Room.cs:24-26 | For non-negative sizes the floor has `(2*(sx/2)+1) * (2*(sz/2)+1)` cells. |
| Rooms.RoomHasCenter | Assets/Scripts/DungeonGenerator/Room.cs:24-26 | For non-negative sizes the center cell at y = 0 is floor. |
| Rooms.RoomSymmetric | Assets/Scripts/DungeonGenerator/Room.cs:24-26 | The floor is point-symmetric about the center. |
| Rooms.RoomInsideRegion | Assets/Scripts/DungeonGenerator/DungeonGenerator.cs:205-213 | A room of non-negative size smaller than a region on both axes, centered on the region's middle cell, lies inside the region. |
| Corridors.StampRow | Assets/Scripts/DungeonGenerator/Corridor.cs:41-42 | The inner loop of the z leg adds exactly the cells of one row between its bounds. |
| Corridors.StampColumn | Assets/Scripts/DungeonGenerator/Corridor.cs:54-55 | The inner loop of the x leg adds exactly the cells of one column between its bounds. |
| Corridors.WalkZ | Assets/Scripts/DungeonGenerator/Corridor.cs:33-44 | The first do-while terminates at `(start.x, start.y, end.z)`, the bend. It adds exactly the z leg: the band `start.x ± width/2` on every row after `start.z` up to `end.z`, or on row `start.z` alone when the z values are equal. |
| Corridors.WalkX | Assets/Scripts/DungeonGenerator/Corridor.cs:46-56 | The second do-while, started at the bend, terminates at `(end.x, start.y, end.z)`. It adds exactly the x leg: the band `end.z ± width/2` on every column after `start.x` up to `end.x`, or on column `start.x` alone when the x values are equal. |
| Corridors.NewCorridor | Assets/Scripts/DungeonGenerator/Corridor.cs:23-59 | The constructor stores start, end and width unchanged. Its floor is the union of the z leg and the x leg. |
| Corridors.SweepLines | Assets/Scripts/DungeonGenerator/Corridor.cs:33-56 | A leg stamps one line per unit step (one line when it does not move). The target line is always among them. The starting line is among them only when the leg does not move. |
| Corridors.CorridorOnGround | Assets/Scripts/DungeonGenerator/Corridor.cs:41-55 | Every corridor cell has y = 0. |
| Corridors.ZLegRow | Assets/Scripts/DungeonGenerator/Corridor.cs:41-42 | Each row of the z leg holds exactly the x values `start.x - width/2 .. start.x + width/2`. |
| Corridors.XLegColumn | Assets/Scripts/DungeonGenerator/Corridor.cs:54-55 | Each column of the x leg holds exactly the z values `end.z - width/2 .. end.z + width/2`. |
| Corridors.CorridorReachesEnd | Assets/Scripts/DungeonGenerator/Corridor.cs:46-56 | For a non-negative width, the end cell and the bend `(start.x, end.z)` are floor. |
| Corridors.StartRowSkipped | Assets/Scripts/DungeonGenerator/Corridor.cs:33-42 | When the z values differ, the z leg stamps no cell of row `start.z`. |
| Corridors.StraightCorridorExample | Assets/Scripts/DungeonGenerator/Corridor.cs:23-59 | A width-1 corridor from (0,0,0) to (0,0,3) is exactly the cells (0,0,1), (0,0,2) and (0,0,3), without its start cell. |
| WallTables.TablesFitTheirWidth | Assets/Scripts/DungeonGenerator/WallTypes/WallTypesCheck.cs:7-127 | Every cardinal entry is in [0, 15]. Every eight-direction entry is in [0, 255]. |
| WallTables.CardinalTablesDisjoint | Assets/Scripts/DungeonGenerator/WallTypes/WallTypesCheck.cs:7-52 | No pattern is in the lists of two different cardinal shapes. |
| WallTables.CornerTablesDisjoint | Assets/Scripts/DungeonGenerator/WallTypes/WallTypesCheck.cs:54-127 | No pattern is in two of the diagonal-corner and bottom lists. None of them shares a pattern with the fully enclosed list. |
| WallTables.CornerEntriesAreTheCornerTables | Assets/Scripts/DungeonGenerator/WallTypes/WallTypesCheck.cs:54-127 | The set `CornerEntries` holds exactly the patterns of the diagonal-corner and bottom lists. |
| WallTables.FullEightDirectionsDuplicates | Assets/Scripts/DungeonGenerator/WallTypes/WallTypesCheck.cs:85-122 | The fully enclosed list has 34 entries. `0b11010111` is at positions 20 and 21 only, and `0b11110101` at positions 19 and 22 only. Dropping two of them leaves 32 entries with the same membership. |
| WallTables.WallFullOverlaps | Assets/Scripts/DungeonGenerator/WallTypes/WallTypesCheck.cs:76-83 | The unused `wallFull` list repeats `0b1101` and shares `0b1001` with the external down-right corner. |
| Walls.FromBinary | Assets/Scripts/DungeonGenerator/DungeonGenerator.cs:365 | The value of an n-character binary string is below 2^n. |
| Walls.BinaryRoundTrip | Assets/Scripts/DungeonGenerator/DungeonGenerator.cs:395 | Reading a binary string and writing the value back at the same length gives the string again. |
| Walls.NumberRoundTrip | Assets/Scripts/DungeonGenerator/DungeonGenerator.cs:395 | Writing a number below 2^n as n characters and reading it back gives the number again. |
| Walls.BinaryBit | Assets/Scripts/DungeonGenerator/DungeonGenerator.cs:395 | Character k of the string is bit `n - 1 - k` of the value: the first character is the most significant bit. |
| Walls.NeighbourMask | Assets/Scripts/DungeonGenerator/DungeonGenerator.cs:386-395 | The pattern is below 2^(number of directions). The bit of the k-th direction, counted from the top, is set exactly when `pos + dir` is floor. |
| Walls.ClassifyCardinal | Assets/Scripts/DungeonGenerator/DungeonGenerator.cs:396-415 | A shape is returned only for a pattern in that shape's list. `None` is returned exactly when no cardinal list holds the pattern. |
| Walls.ClassifyCorner | Assets/Scripts/DungeonGenerator/DungeonGenerator.cs:366-381 | A shape is returned only for a pattern in its list. `None` is returned exactly when no diagonal-corner or bottom list holds the pattern, whether or not the fully enclosed list does. |
| Walls.CardinalOrderIrrelevant | Assets/Scripts/DungeonGenerator/DungeonGenerator.cs:398-413 | A pattern gets cardinal shape t exactly when t's list holds it, whatever the order of the tests. |
| Walls.CornerOrderIrrelevant | Assets/Scripts/DungeonGenerator/DungeonGenerator.cs:368-379 | A pattern gets corner shape t exactly when t's list holds it, whatever the order of the tests. |
| Walls.CardinalSpecialPatterns | Assets/Scripts/DungeonGenerator/WallTypes/WallTypesCheck.cs:7-52 | Patterns `0b0000`, `0b0101`, `0b1101` and `0b1111` classify as `None`. `0b0010` classifies as `Up`. |
| Walls.CardinalMisses | Assets/Scripts/DungeonGenerator/WallTypes/WallTypesCheck.cs:7-52 | Among the non-zero four-bit patterns, exactly `0b0101`, `0b1101` and `0b1111` classify as `None`. |
| Walls.CheckWallTypeCardinal | Assets/Scripts/DungeonGenerator/DungeonGenerator.cs:384-419 | A cell gets shape `u` exactly when `u`'s four-bit list holds the pattern of its up, right, down and left floor neighbours. It gets `None` exactly when no list holds the pattern. |
| Walls.CheckWallTypeCorner | Assets/Scripts/DungeonGenerator/DungeonGenerator.cs:354-382 | A cell gets shape `u` exactly when `u`'s diagonal-corner or bottom list holds the pattern of its eight floor neighbours. It gets `None` exactly when none does, which includes every fully enclosed pattern. |
| Walls.FindWalls | Assets/Scripts/DungeonGenerator/DungeonGenerator.cs:464-480 | The result holds no floor cell and no already-claimed cell. Every neighbour `floor + dir` that is neither is in it. |
| Walls.FindWallsExactly | Assets/Scripts/DungeonGenerator/DungeonGenerator.cs:464-480 | For a direction list closed under reversal, the result is exactly the cells that are neither floor nor claimed and have a floor neighbour in a listed direction. |
| Walls.DirectionsReverse | Assets/Scripts/DungeonGenerator/DungeonGenerator.cs:45-72 | Both direction lists are closed under reversal. Every cardinal direction is one of the eight. |
| Walls.CreateWalls | Assets/Scripts/DungeonGenerator/DungeonGenerator.cs:269-277 | The two passes are disjoint. The labelled cells are exactly their union. Each cell carries the label of the classifier of the pass that found it. |
| Walls.WallsAreTheBoundary | Assets/Scripts/DungeonGenerator/DungeonGenerator.cs:269-277 | A cell gets a label exactly when it is not floor and one of its eight neighbours is floor. No floor cell gets a label. |
| Walls.WallPasses | Assets/Scripts/DungeonGenerator/DungeonGenerator.cs:271-275 | The four-direction pass finds exactly the non-floor cells with floor directly up, right, down or left. The eight-direction pass finds exactly the other non-floor cells with a diagonal floor neighbour, so it never sees cardinal floor. |
| Walls.TouchingCardinalMask | Assets/Scripts/DungeonGenerator/DungeonGenerator.cs:386-395 | A cell with floor on some side has a four-bit pattern in [1, 15]. |
| Walls.CardinalPassPatterns | Assets/Scripts/DungeonGenerator/DungeonGenerator.cs:384-415 | A cell with floor on some side, which is what the four-direction pass finds, has a non-zero pattern. The cardinal classifier labels it `None` exactly for `0b0101`, `0b1101` and `0b1111`. |
| Walls.CornerPassPatterns | Assets/Scripts/DungeonGenerator/DungeonGenerator.cs:354-381 | A cell whose floor neighbours are all diagonal, which is what the eight-direction pass finds, has only diagonal bits set, at least one of them. Of the fully enclosed list, only `0b00010100`, `0b00010101` and `0b01010100` can match it. |
| Walls.CardinalMaskValue | Assets/Scripts/DungeonGenerator/DungeonGenerator.cs:386-395 | The four-bit pattern is 8·up + 4·right + 2·down + left, where each term is 1 for a floor neighbour and 0 otherwise. |
| Walls.EightMaskValue | Assets/Scripts/DungeonGenerator/DungeonGenerator.cs:356-365 | The eight-bit pattern weighs its neighbours from 128 for up down to 1 for left-up. |
| Walls.LineTopWall | Assets/Scripts/DungeonGenerator/DungeonGenerator.cs:384-415 | For three floor cells in a row along x, anywhere on the grid, the cell above the middle is `Up`. |
| Walls.LineBottomWall | Assets/Scripts/DungeonGenerator/DungeonGenerator.cs:384-415 | For the same line, the cell below the middle is `Down`. |
| Walls.LineLeftWall | Assets/Scripts/DungeonGenerator/DungeonGenerator.cs:384-415 | For the same line, the cell past the left end is `Left`. |
| Walls.LineRightWall | Assets/Scripts/DungeonGenerator/DungeonGenerator.cs:384-415 | For the same line, the cell past the right end is `Right`. |
| Walls.LineUpLeftCorner | Assets/Scripts/DungeonGenerator/DungeonGenerator.cs:354-381 | For the same line, the cell diagonally above-left of it is an `UpLeft` corner. |
| Layout.CreateSimpleRooms | Assets/Scripts/DungeonGenerator/DungeonGenerator.cs:196-221 | There is exactly one room per leaf, in leaf order. Each is the room of that leaf's center and size draws. |
| Layout.GenerateCorridors | Assets/Scripts/DungeonGenerator/DungeonGenerator.cs:223-263 | There is one corridor fewer than there are nodes. Every corridor has the configured width and the L-shaped floor between its end points. |
| Layout.CorridorsJoinChildren | Assets/Scripts/DungeonGenerator/DungeonGenerator.cs:232-258 | Every corridor joins some node of the tree to one of its children, oriented as the source orients it. |
| Layout.ChildrenHaveCorridors | Assets/Scripts/DungeonGenerator/DungeonGenerator.cs:232-258 | Every left child has a corridor from its center to its parent's. Every right child has a corridor from its parent's center to its own when it has a sibling, and from its own center to its parent's when it has none. |
| Layout.RoomsFloor | Assets/Scripts/DungeonGenerator/DungeonGenerator.cs:181-185 | The accumulated room floor is exactly the cells of some room. |
| Layout.CorridorsFloor | Assets/Scripts/DungeonGenerator/DungeonGenerator.cs:186-189 | The accumulated corridor floor is exactly the cells of some corridor. |
| Layout.CreateRooms | Assets/Scripts/DungeonGenerator/DungeonGenerator.cs:167-194 | The dungeon floor is exactly the cells of some room or some corridor of the tree. |
| Layout.GenerateDungeon | Assets/Scripts/DungeonGenerator/DungeonGenerator.cs:84-96 | The run yields no tree exactly when the map area has no space for a room. In that case there are no rooms, no corridors, no floor and no walls. Otherwise there is at least one room, so the room list is empty exactly when the map area has no space. No wall is ever a floor cell. |
| Layout.LeavesFit | Assets/Scripts/DungeonGenerator/DungeonGenerator.cs:114-119 | In a tree whose nodes all fit a room, every leaf region fits one. |
| Layout.LeafRoomInsideLeaf | Assets/Scripts/DungeonGenerator/DungeonGenerator.cs:203-213 | Assume offset >= 1, non-negative minimum sizes, valid draws and middle-cell centers. Then the room of a region with space for one lies inside that region. |
| Layout.RoomsInsideLeaves | Assets/Scripts/DungeonGenerator/DungeonGenerator.cs:196-221 | Assume offset >= 1, non-negative minimum sizes, valid draws and middle-cell centers. Then every room lies inside its own leaf and inside the map area, and no two rooms share a cell. |
| Layout.NodeCentersOnFloor | Assets/Scripts/DungeonGenerator/DungeonGenerator.cs:196-263 | Assume a non-negative width, non-negative minimum room sizes, a tree whose every node has space for a room, and valid size draws. Then the center cell of every node is dungeon floor: a leaf's through its room, any other node's as the end of a corridor from a child. |
| Layout.RoomReachesWithinOffset | Assets/Scripts/DungeonGenerator/DungeonGenerator.cs:205-213 | A 10 by 10 leaf with offset 2 can get a 7-wide room that reaches within one cell of its edge. |

## Left out

- Tile painting, the random floor tile choice and `ClearTiles` (`TilePrinter.cs`) are engine output. The model stops at the labelled wall cells and the floor set.
- `CreateWallCollider`, `CreatePlaneNavmesh`, `Awake`, `Start` and the singleton are engine objects and navigation-mesh baking, with float scale arithmetic.
- The fill loop at the end of `CreateWalls`, which paints `None` tiles over the remaining map, only paints.
- `Debug.Log(tree.Root.center)` in `createSimpleRooms` is console output only.
- `GetRandomFloor` is random sampling for callers outside the core.
- `UnityEngine.Random` becomes the functions `cut` and `sizeDraw`. Their constraints are `ValidCuts` and `ValidSizeDraws`.
- `WorldToCell(BoundsInt.center)` becomes the function `center`. Its float rounding and grid scaling are not modelled. `MiddleCenters` states the unit-grid case where a lemma needs it.
- `BinaryTree<T>` becomes the `Tree` datatype. Its `isAleaf`, `hasTwoChilds`, `hasLeftChild` and `hasRightChild` are read as "both children missing", "both present", "left present" and "right present". The class itself is not modelled.
- The map area's size, `MapSize` times the tilemap's cell size, is a parameter of `GenerateDungeon`.
- `CreateRooms` accumulates with `Concat(room.floor, _dungeonFloor)`, which adds the floor gathered so far into each room's and each corridor's own `floor` set. The model keeps every floor as its constructor built it and forms the union separately.
- `_diagonalDirectionsList` is declared but never used.
- `Partition.BSP`: the iteration limit is an integer, and the source's float comparison is not modelled.
- `Partition.LeavesPartitionRoot`: does not claim that the leaves cover the root, because a split can drop children (see `Partition.SplitCanLoseBothChildren`).
- C#'s 32-bit `int` arithmetic, such as `2 * (minSizeOfRoom.x + offset)` in `CanDivide` or `position.x + _internalWitdh / 2` in the Corridor constructor, is unbounded `int` here. Wrap-around would need coordinates near 2^31, far beyond any map size.
- `Layout.CorridorsJoinChildren`: does not claim the corridors connect all rooms into one walkable region. It states only which node pairs each corridor joins.
