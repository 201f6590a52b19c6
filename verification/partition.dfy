/**
  The binary space partitioner: `BSP`, `NoSpaceForRoom`, `CanDivide` and the
  two random cut helpers of the dungeon generator, over an immutable tree of
  regions (the BinaryTree<BoundsInt> the generator builds).
 */
module Partition {
  import opened Wrappers
  import opened Geometry

  /**
    The generator's tuning fields: minSizeOfRoom (x, y), offset, and
    IterationsForBSP, a float in the source that is only ever compared with an
    int iteration counter, so an int bound (its ceiling) has the same effect.
   */
  datatype Config = Config(minRoomX: int, minRoomY: int, offset: int, maxIterations: int)

  /**
    A node of the partition tree: its own region and two branches that may be
    missing. Internal nodes keep their region alongside their children.
   */
  datatype Tree = Tree(root: Region, left: Option<Tree>, right: Option<Tree>)

  predicate IsLeaf(t: Tree)
  {
    t.left.None? && t.right.None?
  }

  predicate HasTwoChildren(t: Tree)
  {
    t.left.Some? && t.right.Some?
  }

  /** A w by h room plus the offset fits in r, with w and h at least the minimum room size. */
  predicate RoomFits(cfg: Config, r: Region, w: int, h: int)
  {
    cfg.minRoomX <= w && w + cfg.offset <= r.size.x && cfg.minRoomY <= h && h + cfg.offset <= r.size.z
  }

  /**
    Not even one minimum room plus the offset fits on some horizontal axis: no
    room of any admissible size fits in r.
   */
  predicate NoSpaceForRoom(cfg: Config, r: Region): (b: bool)
    ensures b <==> forall w, h :: !RoomFits(cfg, r, w, h)
  {
    assert !(r.size.x - cfg.offset < cfg.minRoomX || r.size.z - cfg.offset < cfg.minRoomY)
      ==> RoomFits(cfg, r, cfg.minRoomX, cfg.minRoomY);
    r.size.x - cfg.offset < cfg.minRoomX || r.size.z - cfg.offset < cfg.minRoomY
  }

  /**
    Two rooms fit side by side along x or along z, and the depth limit is not
    yet reached. Under a sane configuration a divisible region also has space
    for a room and can be cut somewhere strictly inside its cut axis.
   */
  predicate CanDivide(cfg: Config, r: Region, iterations: int): (b: bool)
    ensures b ==> iterations < cfg.maxIterations
    ensures b && SaneConfig(cfg) ==> !NoSpaceForRoom(cfg, r) && CutAxisSize(r) >= 2
  {
    && ((r.size.x >= 2 * (cfg.minRoomX + cfg.offset) && r.size.z >= cfg.minRoomY + cfg.offset)
        || (r.size.x >= cfg.minRoomX + cfg.offset && r.size.z >= 2 * (cfg.minRoomY + cfg.offset)))
    && iterations < cfg.maxIterations
  }

  /** The x axis is cut when it is at least as long as z (ties go to x). */
  predicate CutsX(r: Region)
  {
    r.size.x >= r.size.z
  }

  /** The length of the axis that gets cut: the exclusive upper bound of the random cut draw. */
  function CutAxisSize(r: Region): int
  {
    if CutsX(r) then r.size.x else r.size.z
  }

  /**
    The draws `Random.Range(1, size)` made by SplitVertically / SplitHorizontally
    land in [1, size) whenever that range is non-empty.
   */
  ghost predicate ValidCuts(cut: Region -> int)
  {
    forall r :: CutAxisSize(r) >= 2 ==> 1 <= cut(r) < CutAxisSize(r)
  }

  /** A minimum room plus the offset is at least one cell on both axes. */
  predicate SaneConfig(cfg: Config)
  {
    cfg.minRoomX + cfg.offset >= 1 && cfg.minRoomY + cfg.offset >= 1
  }

  /**
    The two child regions the generator builds when it cuts region r at
    `cut`. For a cut strictly inside the cut axis they lie inside r, do not
    overlap, and together cover all of r.
   */
  function Halves(r: Region, cut: int): (h: (Region, Region))
    ensures 1 <= cut < CutAxisSize(r) ==>
      && Inside(h.0, r) && Inside(h.1, r) && Disjoint(h.0, h.1)
      && (forall x, z :: Covers(r, x, z) ==> Covers(h.0, x, z) || Covers(h.1, x, z))
  {
    if CutsX(r) then
      (Region(r.min, Cell(cut, r.size.y, r.size.z)),
       Region(Cell(r.min.x + cut, r.min.y, r.min.z), Cell(r.size.x - cut, r.size.y, r.size.z)))
    else
      (Region(r.min, Cell(r.size.x, r.size.y, cut)),
       Region(Cell(r.min.x, r.min.y, r.min.z + cut), Cell(r.size.x, r.size.y, r.size.z - cut)))
  }

  /**
    A cut strictly inside the cut axis yields two halves of positive length on
    that axis whose lengths add up to the parent's, with the other axis
    unchanged; the halves are disjoint and together cover exactly the parent.
   */
  lemma HalvesPartition(r: Region, cut: int)
    requires 1 <= cut < CutAxisSize(r)
    ensures var (a, b) := Halves(r, cut);
      && a.min == r.min
      && (CutsX(r) ==> a.size.x > 0 && b.size.x > 0 && a.size.x + b.size.x == r.size.x
                       && a.size.z == b.size.z == r.size.z && b.min.x == r.min.x + a.size.x && b.min.z == r.min.z)
      && (!CutsX(r) ==> a.size.z > 0 && b.size.z > 0 && a.size.z + b.size.z == r.size.z
                        && a.size.x == b.size.x == r.size.x && b.min.z == r.min.z + a.size.z && b.min.x == r.min.x)
      && Inside(a, r) && Inside(b, r) && Disjoint(a, b)
      && (forall x, z :: Covers(r, x, z) ==> Covers(a, x, z) || Covers(b, x, z))
  {
  }

  /** With a sane configuration, a divisible region is at least two cells long on its cut axis. */
  lemma DivisibleCutAxis(cfg: Config, r: Region, iterations: int)
    requires SaneConfig(cfg) && CanDivide(cfg, r, iterations)
    ensures CutAxisSize(r) >= 2
  {
  }

  /** Every node of the tree can hold a minimum room plus the offset. */
  ghost predicate AllFit(cfg: Config, t: Tree)
  {
    && !NoSpaceForRoom(cfg, t.root)
    && (t.left.Some? ==> AllFit(cfg, t.left.value))
    && (t.right.Some? ==> AllFit(cfg, t.right.value))
  }

  /**
    Every child lies inside its parent's region, and two siblings never
    overlap and together cover their parent, at every level of the tree.
   */
  ghost predicate Partitioned(t: Tree)
  {
    && (t.left.Some? ==> Inside(t.left.value.root, t.root) && Partitioned(t.left.value))
    && (t.right.Some? ==> Inside(t.right.value.root, t.root) && Partitioned(t.right.value))
    && (HasTwoChildren(t) ==> Disjoint(t.left.value.root, t.right.value.root))
    && (HasTwoChildren(t) ==> forall x, z :: Covers(t.root, x, z) ==>
          Covers(t.left.value.root, x, z) || Covers(t.right.value.root, x, z))
  }

  /** The number of edges on the longest path from t down to a leaf. */
  function Height(t: Tree): nat
  {
    if IsLeaf(t) then 0
    else
      var hl := if t.left.Some? then Height(t.left.value) else 0;
      var hr := if t.right.Some? then Height(t.right.value) else 0;
      1 + Max(hl, hr)
  }

  function NodeCount(t: Option<Tree>): nat
  {
    match t
    case None => 0
    case Some(n) => 1 + NodeCount(n.left) + NodeCount(n.right)
  }

  /** The regions of the leaves, left subtree before right subtree. */
  function Leaves(t: Option<Tree>): seq<Region>
  {
    match t
    case None => []
    case Some(n) => if IsLeaf(n) then [n.root] else Leaves(n.left) + Leaves(n.right)
  }

  /** Every tree has at least one leaf: a node with no children is one itself. */
  lemma {:induction false} LeavesNonEmpty(t: Tree)
    ensures |Leaves(Some(t))| >= 1
  {
    if !IsLeaf(t) {
      assert Leaves(Some(t)) == Leaves(t.left) + Leaves(t.right);
      if t.left.Some? {
        LeavesNonEmpty(t.left.value);
      } else {
        LeavesNonEmpty(t.right.value);
      }
    }
  }

  /**
    The recursive partitioner. `cut(r)` stands for the random draw made when
    region r is split. No region is handed back when even one room does not
    fit; an undividable region comes back as a leaf; otherwise the region is
    cut across its longer axis and both halves are partitioned one level
    deeper, the node keeping its own region. A child is present exactly when
    its half has space for a room.
   */
  function BSP(cfg: Config, cut: Region -> int, region: Region, iterations: int): (t: Option<Tree>)
    decreases Max(0, cfg.maxIterations - iterations)
    ensures t.None? <==> NoSpaceForRoom(cfg, region)
    ensures t.Some? ==> t.value.root == region
    ensures !NoSpaceForRoom(cfg, region) && !CanDivide(cfg, region, iterations) ==> t == Some(Tree(region, None, None))
    ensures t.Some? ==> AllFit(cfg, t.value)
    ensures t.Some? ==> Height(t.value) <= Max(0, cfg.maxIterations - iterations)
    ensures t.Some? && t.value.left.Some? ==>
      CanDivide(cfg, region, iterations) && t.value.left.value.root == Halves(region, cut(region)).0
    ensures t.Some? && t.value.right.Some? ==>
      CanDivide(cfg, region, iterations) && t.value.right.value.root == Halves(region, cut(region)).1
    ensures t.Some? && CanDivide(cfg, region, iterations) ==>
      && (t.value.left.Some? <==> !NoSpaceForRoom(cfg, Halves(region, cut(region)).0))
      && (t.value.right.Some? <==> !NoSpaceForRoom(cfg, Halves(region, cut(region)).1))
    ensures t.Some? && ValidCuts(cut) && SaneConfig(cfg) ==> Partitioned(t.value)
  {
    if NoSpaceForRoom(cfg, region) then None
    else if !CanDivide(cfg, region, iterations) then Some(Tree(region, None, None))
    else
      var (a, b) := Halves(region, cut(region));
      var l := BSP(cfg, cut, a, iterations + 1);
      var r := BSP(cfg, cut, b, iterations + 1);
      assert ValidCuts(cut) && SaneConfig(cfg) ==> 1 <= cut(region) < CutAxisSize(region) by {
        if ValidCuts(cut) && SaneConfig(cfg) {
          DivisibleCutAxis(cfg, region, iterations);
        }
      }
      Some(Tree(region, l, r))
  }

  lemma InsideTransitive(a: Region, b: Region, c: Region)
    requires Inside(a, b) && Inside(b, c)
    ensures Inside(a, c)
  {
  }

  lemma DisjointWithin(a: Region, outerA: Region, b: Region, outerB: Region)
    requires Inside(a, outerA) && Inside(b, outerB) && Disjoint(outerA, outerB)
    ensures Disjoint(a, b)
  {
  }

  /**
    In a partitioned tree every leaf region lies inside the root region and
    any two distinct leaves are disjoint.
   */
  lemma {:induction false} LeavesPartitionRoot(t: Tree)
    requires Partitioned(t)
    ensures forall i :: 0 <= i < |Leaves(Some(t))| ==> Inside(Leaves(Some(t))[i], t.root)
    ensures forall i, j :: 0 <= i < j < |Leaves(Some(t))| ==> Disjoint(Leaves(Some(t))[i], Leaves(Some(t))[j])
  {
    if !IsLeaf(t) {
      var ls := Leaves(t.left);
      var rs := Leaves(t.right);
      assert Leaves(Some(t)) == ls + rs;
      if t.left.Some? {
        LeavesPartitionRoot(t.left.value);
        forall i | 0 <= i < |ls| ensures Inside(ls[i], t.root) {
          InsideTransitive(ls[i], t.left.value.root, t.root);
        }
      }
      if t.right.Some? {
        LeavesPartitionRoot(t.right.value);
        forall i | 0 <= i < |rs| ensures Inside(rs[i], t.root) {
          InsideTransitive(rs[i], t.right.value.root, t.root);
        }
      }
      forall i, j | 0 <= i < |ls| && 0 <= j < |rs| ensures Disjoint(ls[i], rs[j]) {
        DisjointWithin(ls[i], t.left.value.root, rs[j], t.right.value.root);
      }
    }
  }

  /** A region of 5 by 5 cannot host a 6 by 6 room, so the partitioner yields nothing for it. */
  lemma TooSmallRegionYieldsNothing(cfg: Config, cut: Region -> int, m: Cell, y: int, iterations: int)
    requires cfg.minRoomX == 6 && cfg.minRoomY == 6 && cfg.offset >= 0
    ensures NoSpaceForRoom(cfg, Region(m, Cell(5, y, 5)))
    ensures BSP(cfg, cut, Region(m, Cell(5, y, 5)), iterations) == None
  {
  }

  /**
    A split does not always leave a child: a 12 by 12 region with minimum
    room 10 by 1 and offset 1 is divisible (by the z test), is cut along x (a
    tie), and a cut at 6 leaves both halves too narrow, so the split node ends
    up with no children at all and counts as a leaf.
   */
  lemma SplitCanLoseBothChildren(cut: Region -> int)
    requires cut(Region(Cell(0, 0, 0), Cell(12, 0, 12))) == 6
    ensures var cfg := Config(10, 1, 1, 3);
      var t := BSP(cfg, cut, Region(Cell(0, 0, 0), Cell(12, 0, 12)), 0);
      && CanDivide(cfg, Region(Cell(0, 0, 0), Cell(12, 0, 12)), 0)
      && t == Some(Tree(Region(Cell(0, 0, 0), Cell(12, 0, 12)), None, None))
      && IsLeaf(t.value)
  {
    var cfg := Config(10, 1, 1, 3);
    var r := Region(Cell(0, 0, 0), Cell(12, 0, 12));
    var (a, b) := Halves(r, 6);
    assert NoSpaceForRoom(cfg, a) && NoSpaceForRoom(cfg, b);
  }
}
