/**
  Rooms and corridors laid out over the partition tree (`createSimpleRooms`,
  `GenerateCorridors`, `CreateRooms`) and the whole generation run
  (`GenerateDungeon`): partition, rooms, corridors, floor, walls.
 */
module Layout {
  import opened Wrappers
  import opened Geometry
  import opened Partition
  import opened Rooms
  import opened Corridors
  import opened Walls

  /**
    The floor-grid cell (x, z) that a region's center maps to. The generator
    takes `BoundsInt.center` (a float point) through the tilemap's
    `WorldToCell`; the model receives the result as a function.
   */
  type CenterMap = Region -> (int, int)

  /** The two room-size draws made for a leaf region: along x and along z. */
  type SizeDraws = Region -> (int, int)

  /** The ground cell for a region's center. */
  function CenterCell(center: CenterMap, r: Region): Cell
  {
    Cell(center(r).0, 0, center(r).1)
  }

  /**
    `Random.Range(lo, hi)` on integers may return v: a value of [lo, hi) when
    that range is non-empty, lo itself when lo == hi (and no constraint when
    the bounds are reversed).
   */
  predicate RangeDraw(lo: int, hi: int, v: int)
  {
    (lo < hi ==> lo <= v < hi) && (lo == hi ==> v == lo)
  }

  /** Every size draw is one `Random.Range(minSizeOfRoom, size - offset)` could make, on both axes. */
  ghost predicate ValidSizeDraws(cfg: Config, sizeDraw: SizeDraws)
  {
    forall r: Region :: RangeDraw(cfg.minRoomX, r.size.x - cfg.offset, sizeDraw(r).0)
             && RangeDraw(cfg.minRoomY, r.size.z - cfg.offset, sizeDraw(r).1)
  }

  /**
    The center map picks the middle cell `min + size / 2` of each region, as
    a unit grid anchored at the origin does.
   */
  ghost predicate MiddleCenters(center: CenterMap)
  {
    forall r: Region :: center(r) == (r.min.x + r.size.x / 2, r.min.z + r.size.z / 2)
  }

  /** The room made for a leaf region: centered on the region's center cell, sized by the draws. */
  function LeafRoom(sizeDraw: SizeDraws, center: CenterMap, r: Region): Room
  {
    MakeRoom(CenterCell(center, r), Cell(sizeDraw(r).0, 0, sizeDraw(r).1))
  }

  /**
    createSimpleRooms: a room for every leaf, the node's own room (if it is a
    leaf) before those of its left and then its right subtree. The rooms are
    exactly the leaf rooms, one per leaf, in leaf order.
   */
  function CreateSimpleRooms(t: Option<Tree>, sizeDraw: SizeDraws, center: CenterMap): (rooms: seq<Room>)
    ensures |rooms| == |Leaves(t)|
    ensures forall i :: 0 <= i < |rooms| ==> rooms[i] == LeafRoom(sizeDraw, center, Leaves(t)[i])
  {
    match t
    case None => []
    case Some(n) =>
      (if IsLeaf(n) then [LeafRoom(sizeDraw, center, n.root)] else [])
      + CreateSimpleRooms(n.left, sizeDraw, center) + CreateSimpleRooms(n.right, sizeDraw, center)
  }

  /** The corridor from the left child's center to the node's center. */
  function LeftLink(n: Tree, center: CenterMap, width: int): Corridor
    requires n.left.Some?
  {
    MakeCorridor(CenterCell(center, n.left.value.root), CenterCell(center, n.root), width)
  }

  /**
    The corridor for the right child: from the node's center to the right
    child's when a left child exists too, otherwise from the right child's
    center to the node's.
   */
  function RightLink(n: Tree, center: CenterMap, width: int): Corridor
    requires n.right.Some?
  {
    if n.left.Some? then MakeCorridor(CenterCell(center, n.root), CenterCell(center, n.right.value.root), width)
    else MakeCorridor(CenterCell(center, n.right.value.root), CenterCell(center, n.root), width)
  }

  /**
    GenerateCorridors: the corridors of the left subtree, then of the right
    subtree, then the node's own: one per child it has. There is one corridor
    per parent-child edge, so one fewer than there are nodes, and every one
    has the configured width and the L-shaped floor between its end points.
   */
  function GenerateCorridors(t: Option<Tree>, center: CenterMap, width: int): (cs: seq<Corridor>)
    ensures |cs| + (if t.Some? then 1 else 0) == NodeCount(t)
    ensures forall i :: 0 <= i < |cs| ==> cs[i].width == width && cs[i] == MakeCorridor(cs[i].startPoint, cs[i].endPoint, width)
  {
    match t
    case None => []
    case Some(n) =>
      GenerateCorridors(n.left, center, width) + GenerateCorridors(n.right, center, width)
      + (if n.left.Some? then [LeftLink(n, center, width)] else [])
      + (if n.right.Some? then [RightLink(n, center, width)] else [])
  }

  /** Every node of the tree, as a set of subtrees. */
  function Subtrees(t: Option<Tree>): set<Tree>
  {
    match t
    case None => {}
    case Some(n) => {n} + Subtrees(n.left) + Subtrees(n.right)
  }

  /** A corridor that joins node n to one of its children. */
  ghost predicate LinksChild(c: Corridor, n: Tree, center: CenterMap, width: int)
  {
    (n.left.Some? && c == LeftLink(n, center, width)) || (n.right.Some? && c == RightLink(n, center, width))
  }

  /** Every corridor joins some node of the tree to one of its children. */
  lemma {:induction false} CorridorsJoinChildren(t: Option<Tree>, center: CenterMap, width: int)
    ensures forall c :: c in GenerateCorridors(t, center, width) ==> exists n :: n in Subtrees(t) && LinksChild(c, n, center, width)
  {
    match t
    case None =>
    case Some(m) =>
      CorridorsJoinChildren(m.left, center, width);
      CorridorsJoinChildren(m.right, center, width);
      var ls := GenerateCorridors(m.left, center, width);
      var rs := GenerateCorridors(m.right, center, width);
      var own := (if m.left.Some? then [LeftLink(m, center, width)] else [])
                 + (if m.right.Some? then [RightLink(m, center, width)] else []);
      assert GenerateCorridors(t, center, width) == ls + rs + own;
      forall c | c in GenerateCorridors(t, center, width) ensures exists n :: n in Subtrees(t) && LinksChild(c, n, center, width) {
        if c in ls {
          var n :| n in Subtrees(m.left) && LinksChild(c, n, center, width);
          assert n in Subtrees(t);
        } else if c in rs {
          var n :| n in Subtrees(m.right) && LinksChild(c, n, center, width);
          assert n in Subtrees(t);
        } else {
          assert c in own;
          assert m in Subtrees(t) && LinksChild(c, m, center, width);
        }
      }
  }

  /** Every child of every node of the tree has its corridor. */
  lemma {:induction false} ChildrenHaveCorridors(t: Option<Tree>, center: CenterMap, width: int)
    ensures forall n :: n in Subtrees(t) && n.left.Some? ==> LeftLink(n, center, width) in GenerateCorridors(t, center, width)
    ensures forall n :: n in Subtrees(t) && n.right.Some? ==> RightLink(n, center, width) in GenerateCorridors(t, center, width)
  {
    match t
    case None =>
    case Some(m) =>
      ChildrenHaveCorridors(m.left, center, width);
      ChildrenHaveCorridors(m.right, center, width);
      var ls := GenerateCorridors(m.left, center, width);
      var rs := GenerateCorridors(m.right, center, width);
      var own := (if m.left.Some? then [LeftLink(m, center, width)] else [])
                 + (if m.right.Some? then [RightLink(m, center, width)] else []);
      var cs := GenerateCorridors(t, center, width);
      assert cs == ls + rs + own;
      forall n | n in Subtrees(t) && n.left.Some? ensures LeftLink(n, center, width) in cs {
        if n == m {
          assert LeftLink(n, center, width) in own;
        } else if n in Subtrees(m.left) {
          assert LeftLink(n, center, width) in ls;
        } else {
          assert LeftLink(n, center, width) in rs;
        }
      }
      forall n | n in Subtrees(t) && n.right.Some? ensures RightLink(n, center, width) in cs {
        if n == m {
          assert RightLink(n, center, width) in own;
        } else if n in Subtrees(m.left) {
          assert RightLink(n, center, width) in ls;
        } else {
          assert RightLink(n, center, width) in rs;
        }
      }
  }

  /** Every cell of some room. */
  function RoomsFloor(rooms: seq<Room>): (f: set<Cell>)
    ensures forall c :: c in f <==> exists i :: 0 <= i < |rooms| && c in rooms[i].floor
  {
    if |rooms| == 0 then {}
    else
      var init := rooms[..|rooms| - 1];
      assert forall i :: 0 <= i < |init| ==> init[i] == rooms[i];
      RoomsFloor(init) + rooms[|rooms| - 1].floor
  }

  /** Every cell of some corridor. */
  function CorridorsFloor(corridors: seq<Corridor>): (f: set<Cell>)
    ensures forall c :: c in f <==> exists j :: 0 <= j < |corridors| && c in corridors[j].floor
  {
    if |corridors| == 0 then {}
    else
      var init := corridors[..|corridors| - 1];
      assert forall j :: 0 <= j < |init| ==> init[j] == corridors[j];
      CorridorsFloor(init) + corridors[|corridors| - 1].floor
  }

  /** The rooms, corridors and dungeon floor that CreateRooms leaves behind. */
  datatype Dungeon = Dungeon(rooms: seq<Room>, corridors: seq<Corridor>, floor: set<Cell>)

  /**
    CreateRooms: the rooms of the leaves and the corridors of the tree; the
    dungeon floor is every cell of some room or some corridor.
   */
  function CreateRooms(t: Option<Tree>, sizeDraw: SizeDraws, center: CenterMap, width: int): (d: Dungeon)
    ensures d.rooms == CreateSimpleRooms(t, sizeDraw, center) && d.corridors == GenerateCorridors(t, center, width)
    ensures forall c :: c in d.floor <==>
      (exists i :: 0 <= i < |d.rooms| && c in d.rooms[i].floor) || (exists j :: 0 <= j < |d.corridors| && c in d.corridors[j].floor)
  {
    var rooms := CreateSimpleRooms(t, sizeDraw, center);
    var corridors := GenerateCorridors(t, center, width);
    Dungeon(rooms, corridors, RoomsFloor(rooms) + CorridorsFloor(corridors))
  }

  /** The outcome of one generation run: the partition tree, the dungeon and its walls. */
  datatype Generated = Generated(tree: Option<Tree>, dungeon: Dungeon, walls: WallLayout)

  /**
    GenerateDungeon: partition the map area from depth 0, lay out rooms and
    corridors on the tree, then classify the walls around the floor. A map
    area too small for one room gives an empty dungeon with no walls; any
    other map area gets at least one room.
   */
  function GenerateDungeon(cfg: Config, cut: Region -> int, sizeDraw: SizeDraws, center: CenterMap, width: int, area: Region): (g: Generated)
    ensures g.tree.None? <==> NoSpaceForRoom(cfg, area)
    ensures g.tree.Some? ==> g.tree.value.root == area
    ensures g.tree.None? ==> g.dungeon.rooms == [] && g.dungeon.corridors == [] && g.dungeon.floor == {} && g.walls.labels == map[]
    ensures g.dungeon.rooms == [] <==> NoSpaceForRoom(cfg, area)
    ensures g.walls.labels.Keys !! g.dungeon.floor
  {
    var tree := BSP(cfg, cut, area, 0);
    assert tree.Some? ==> |Leaves(tree)| >= 1 by {
      if tree.Some? {
        LeavesNonEmpty(tree.value);
      }
    }
    var dungeon := CreateRooms(tree, sizeDraw, center, width);
    Generated(tree, dungeon, CreateWalls(dungeon.floor))
  }

  /** A node that fits a room has subtrees that all fit one too. */
  lemma {:induction false} AllFitSubtrees(cfg: Config, t: Tree, n: Tree)
    requires AllFit(cfg, t) && n in Subtrees(Some(t))
    ensures AllFit(cfg, n)
  {
    if n != t {
      if n in Subtrees(t.left) {
        AllFitSubtrees(cfg, t.left.value, n);
      } else {
        AllFitSubtrees(cfg, t.right.value, n);
      }
    }
  }

  /** Every leaf region of a tree whose nodes all fit a room fits one. */
  lemma {:induction false} LeavesFit(cfg: Config, t: Tree)
    requires AllFit(cfg, t)
    ensures forall i :: 0 <= i < |Leaves(Some(t))| ==> !NoSpaceForRoom(cfg, Leaves(Some(t))[i])
  {
    if !IsLeaf(t) {
      var ls := Leaves(t.left);
      var rs := Leaves(t.right);
      assert Leaves(Some(t)) == ls + rs;
      if t.left.Some? {
        LeavesFit(cfg, t.left.value);
      }
      if t.right.Some? {
        LeavesFit(cfg, t.right.value);
      }
    }
  }

  /** A leaf node's region appears among the leaves. */
  lemma {:induction false} LeafSubtreeIsLeaf(t: Option<Tree>, n: Tree)
    requires n in Subtrees(t) && IsLeaf(n)
    ensures n.root in Leaves(t)
  {
    match t
    case None =>
    case Some(m) =>
      if n == m {
        assert Leaves(t) == [n.root];
      } else {
        assert !IsLeaf(m);
        if n in Subtrees(m.left) {
          LeafSubtreeIsLeaf(m.left, n);
        } else {
          LeafSubtreeIsLeaf(m.right, n);
        }
      }
  }

  /** The room of a region with space for one lies inside that region. */
  lemma LeafRoomInsideLeaf(cfg: Config, sizeDraw: SizeDraws, center: CenterMap, r: Region)
    requires cfg.offset >= 1 && cfg.minRoomX >= 0 && cfg.minRoomY >= 0
    requires ValidSizeDraws(cfg, sizeDraw) && MiddleCenters(center) && !NoSpaceForRoom(cfg, r)
    ensures forall c :: c in LeafRoom(sizeDraw, center, r).floor ==> Covers(r, c.x, c.z)
  {
    var s := sizeDraw(r);
    assert RangeDraw(cfg.minRoomX, r.size.x - cfg.offset, s.0) && RangeDraw(cfg.minRoomY, r.size.z - cfg.offset, s.1);
    assert center(r) == (r.min.x + r.size.x / 2, r.min.z + r.size.z / 2);
    RoomInsideRegion(r, Cell(s.0, 0, s.1));
  }

  /**
    With an offset of at least one cell, non-negative minimum room sizes,
    draws as `Random.Range` makes them and centers at the regions' middle
    cells, every room lies inside its own leaf region and so inside the map
    area, and no two rooms share a cell.
   */
  lemma RoomsInsideLeaves(cfg: Config, cut: Region -> int, sizeDraw: SizeDraws, center: CenterMap, area: Region)
    requires cfg.offset >= 1 && cfg.minRoomX >= 0 && cfg.minRoomY >= 0
    requires ValidCuts(cut) && ValidSizeDraws(cfg, sizeDraw) && MiddleCenters(center)
    ensures var t := BSP(cfg, cut, area, 0);
      var rooms := CreateSimpleRooms(t, sizeDraw, center);
      && (forall i, c :: 0 <= i < |rooms| && c in rooms[i].floor ==> Covers(Leaves(t)[i], c.x, c.z) && Covers(area, c.x, c.z))
      && (forall i, j :: 0 <= i < j < |rooms| ==> rooms[i].floor !! rooms[j].floor)
  {
    var t := BSP(cfg, cut, area, 0);
    var rooms := CreateSimpleRooms(t, sizeDraw, center);
    if t.Some? {
      var leaves := Leaves(t);
      LeavesFit(cfg, t.value);
      LeavesPartitionRoot(t.value);
      forall i | 0 <= i < |rooms|
        ensures forall c :: c in rooms[i].floor ==> Covers(leaves[i], c.x, c.z) && Covers(area, c.x, c.z)
      {
        LeafRoomInsideLeaf(cfg, sizeDraw, center, leaves[i]);
        assert Inside(leaves[i], area);
      }
      forall i, j | 0 <= i < j < |rooms| ensures rooms[i].floor !! rooms[j].floor {
        assert Disjoint(leaves[i], leaves[j]);
        forall c | c in rooms[i].floor ensures c !in rooms[j].floor {
          assert Covers(leaves[i], c.x, c.z);
        }
      }
    }
  }

  /**
    With a non-negative corridor width and leaf size draws as `Random.Range`
    makes them for non-negative minimum sizes, the center cell of every node
    of a fitting tree is dungeon floor: a leaf's through its room, any other
    node's as the end point of a corridor from one of its children.
   */
  lemma NodeCentersOnFloor(cfg: Config, t: Tree, sizeDraw: SizeDraws, center: CenterMap, width: int)
    requires width >= 0 && cfg.minRoomX >= 0 && cfg.minRoomY >= 0
    requires AllFit(cfg, t) && ValidSizeDraws(cfg, sizeDraw)
    ensures forall n :: n in Subtrees(Some(t)) ==> CenterCell(center, n.root) in CreateRooms(Some(t), sizeDraw, center, width).floor
  {
    var d := CreateRooms(Some(t), sizeDraw, center, width);
    ChildrenHaveCorridors(Some(t), center, width);
    forall n | n in Subtrees(Some(t)) ensures CenterCell(center, n.root) in d.floor {
      var c := CenterCell(center, n.root);
      if IsLeaf(n) {
        LeafSubtreeIsLeaf(Some(t), n);
        var i :| 0 <= i < |Leaves(Some(t))| && Leaves(Some(t))[i] == n.root;
        AllFitSubtrees(cfg, t, n);
        var s := sizeDraw(n.root);
        assert RangeDraw(cfg.minRoomX, n.root.size.x - cfg.offset, s.0) && RangeDraw(cfg.minRoomY, n.root.size.z - cfg.offset, s.1);
        RoomHasCenter(c, Cell(s.0, 0, s.1));
        assert c in d.rooms[i].floor;
      } else if n.left.Some? {
        var link := LeftLink(n, center, width);
        CorridorReachesEnd(link.startPoint, c, width);
        var j :| 0 <= j < |d.corridors| && d.corridors[j] == link;
      } else {
        var link := RightLink(n, center, width);
        CorridorReachesEnd(link.startPoint, c, width);
        var j :| 0 <= j < |d.corridors| && d.corridors[j] == link;
      }
    }
  }

  /**
    The offset is not kept clear around a room: in a 10 by 10 leaf at the
    origin with offset 2 and minimum size 4, a draw of 7 is possible, and the
    room then covers column 8, with only column 9 of the leaf beyond it.
   */
  lemma RoomReachesWithinOffset()
    ensures var r := Region(Cell(0, 0, 0), Cell(10, 0, 10));
      && RangeDraw(4, r.size.x - 2, 7)
      && Cell(8, 0, 5) in RoomFloor(Cell(r.min.x + r.size.x / 2, 0, r.min.z + r.size.z / 2), Cell(7, 0, 7))
      && (r.min.x + r.size.x - 1) - 8 < 2
  {
    RectMembership(2, 8, 2, 8, Cell(8, 0, 5));
  }
}
