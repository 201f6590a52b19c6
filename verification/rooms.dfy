/**
  A room: a center, a size and the filled rectangle of floor cells the Room
  constructor stamps around the center.
 */
module Rooms {
  import opened Geometry

  datatype Room = Room(centerPos: Cell, size: Cell, floor: set<Cell>)

  /**
    The room footprint: every ground cell within `size / 2` (truncated) of the
    center on x and on z, both ends included.
   */
  function RoomFloor(center: Cell, size: Cell): set<Cell>
  {
    Rect(center.x - Half(size.x), center.x + Half(size.x), center.z - Half(size.z), center.z + Half(size.z))
  }

  function MakeRoom(center: Cell, size: Cell): Room
  {
    Room(center, size, RoomFloor(center, size))
  }

  /**
    The Room constructor: two nested counting loops add one cell per (i, j).
    The loops build exactly the footprint and store the arguments unchanged.
   */
  method NewRoom(center: Cell, size: Cell) returns (room: Room)
    ensures room.centerPos == center && room.size == size
    ensures forall c :: c in room.floor <==>
      c.y == 0 && center.x - Half(size.x) <= c.x <= center.x + Half(size.x)
               && center.z - Half(size.z) <= c.z <= center.z + Half(size.z)
    ensures room == MakeRoom(center, size)
  {
    var x0, x1 := center.x - Half(size.x), center.x + Half(size.x);
    var z0, z1 := center.z - Half(size.z), center.z + Half(size.z);
    var floor: set<Cell> := {};
    var i := x0;
    while i <= x1
      invariant x0 <= i || x1 < x0
      invariant x0 <= x1 ==> i <= x1 + 1
      invariant x1 < x0 ==> i == x0
      invariant floor == Rect(x0, i - 1, z0, z1)
      decreases x1 - i
    {
      var j := z0;
      while j <= z1
        invariant z0 <= j || z1 < z0
        invariant z0 <= z1 ==> j <= z1 + 1
        invariant z1 < z0 ==> j == z0
        invariant floor == Rect(x0, i - 1, z0, z1) + Rect(i, i, z0, j - 1)
        decreases z1 - j
      {
        RectGrowZ(i, i, z0, j - 1);
        floor := floor + {Cell(i, 0, j)};
        j := j + 1;
      }
      if z1 < z0 {
        RectEmpty(i, i, z0, j - 1);
        RectEmpty(i, i, z0, z1);
      }
      RectGrowX(x0, i - 1, z0, z1);
      i := i + 1;
    }
    if x1 < x0 {
      RectEmpty(x0, i - 1, z0, z1);
      RectEmpty(x0, x1, z0, z1);
    }
    room := Room(center, size, floor);
    forall c ensures c in room.floor <==> c.y == 0 && x0 <= c.x <= x1 && z0 <= c.z <= z1 {
      RectMembership(x0, x1, z0, z1, c);
    }
  }

  /** For non-negative sizes the room covers (2 * (sx / 2) + 1) * (2 * (sz / 2) + 1) cells. */
  lemma RoomCardinality(center: Cell, size: Cell)
    requires size.x >= 0 && size.z >= 0
    ensures |RoomFloor(center, size)| == (2 * (size.x / 2) + 1) * (2 * (size.z / 2) + 1)
  {
    RectCardinality(center.x - Half(size.x), center.x + Half(size.x), center.z - Half(size.z), center.z + Half(size.z));
  }

  /** For non-negative sizes the center cell, lowered to the ground, is part of the room. */
  lemma RoomHasCenter(center: Cell, size: Cell)
    requires size.x >= 0 && size.z >= 0
    ensures Cell(center.x, 0, center.z) in RoomFloor(center, size)
  {
    RectMembership(center.x - Half(size.x), center.x + Half(size.x), center.z - Half(size.z), center.z + Half(size.z),
                   Cell(center.x, 0, center.z));
  }

  /** The footprint is point-symmetric about the center. */
  lemma RoomSymmetric(center: Cell, size: Cell, d: int, e: int)
    ensures Cell(center.x + d, 0, center.z + e) in RoomFloor(center, size)
        <==> Cell(center.x - d, 0, center.z - e) in RoomFloor(center, size)
  {
    var x0, x1 := center.x - Half(size.x), center.x + Half(size.x);
    var z0, z1 := center.z - Half(size.z), center.z + Half(size.z);
    RectMembership(x0, x1, z0, z1, Cell(center.x + d, 0, center.z + e));
    RectMembership(x0, x1, z0, z1, Cell(center.x - d, 0, center.z - e));
  }

  /**
    A room whose size lies below a region's size, centered on the region's
    middle cell `min + size / 2`, stays inside that region.
   */
  lemma RoomInsideRegion(r: Region, size: Cell)
    requires 0 <= size.x < r.size.x && 0 <= size.z < r.size.z
    ensures forall c :: c in RoomFloor(Cell(r.min.x + r.size.x / 2, 0, r.min.z + r.size.z / 2), size) ==> Covers(r, c.x, c.z)
  {
    var center := Cell(r.min.x + r.size.x / 2, 0, r.min.z + r.size.z / 2);
    forall c | c in RoomFloor(center, size) ensures Covers(r, c.x, c.z) {
      RectMembership(center.x - Half(size.x), center.x + Half(size.x), center.z - Half(size.z), center.z + Half(size.z), c);
    }
  }
}
