/**
  A corridor: the L-shaped band of floor cells the Corridor constructor
  stamps from a start cell to an end cell, first along z, then along x.
 */
module Corridors {
  import opened Geometry

  datatype Corridor = Corridor(startPoint: Cell, endPoint: Cell, width: int, floor: set<Cell>)

  /**
    The lowest line a leg stamps when it walks from a toward b. A leg moves
    one unit before it stamps, so it skips its own starting line unless it
    does not move at all.
   */
  function SweepLo(a: int, b: int): int
  {
    if a == b then a else if a < b then a + 1 else b
  }

  /** The highest line a leg stamps when it walks from a toward b. */
  function SweepHi(a: int, b: int): int
  {
    if a == b then a else if a < b then b else a - 1
  }

  /** The rows of the z leg: the band start.x +- h on every row the walk visits. */
  function ZLeg(start: Cell, end: Cell, h: int): set<Cell>
  {
    Rect(start.x - h, start.x + h, SweepLo(start.z, end.z), SweepHi(start.z, end.z))
  }

  /** The columns of the x leg, walked along row end.z: the band end.z +- h on every column visited. */
  function XLeg(start: Cell, end: Cell, h: int): set<Cell>
  {
    Rect(SweepLo(start.x, end.x), SweepHi(start.x, end.x), end.z - h, end.z + h)
  }

  /** The corridor footprint for a band of half-width `width / 2` (truncated). */
  function CorridorFloor(start: Cell, end: Cell, width: int): set<Cell>
  {
    ZLeg(start, end, Half(width)) + XLeg(start, end, Half(width))
  }

  function MakeCorridor(start: Cell, end: Cell, width: int): Corridor
  {
    Corridor(start, end, width, CorridorFloor(start, end, width))
  }

  /** The inner `for` loop of the z leg: one row z, columns lo..hi. */
  method StampRow(floor: set<Cell>, lo: int, hi: int, z: int) returns (result: set<Cell>)
    ensures result == floor + Rect(lo, hi, z, z)
  {
    result := floor;
    var i := lo;
    while i <= hi
      invariant lo <= i || hi < lo
      invariant lo <= hi ==> i <= hi + 1
      invariant hi < lo ==> i == lo
      invariant result == floor + Rect(lo, i - 1, z, z)
      decreases hi - i
    {
      RectGrowX(lo, i - 1, z, z);
      result := result + {Cell(i, 0, z)};
      i := i + 1;
    }
    if hi < lo {
      RectEmpty(lo, i - 1, z, z);
      RectEmpty(lo, hi, z, z);
    }
  }

  /** The inner `for` loop of the x leg: one column x, rows lo..hi. */
  method StampColumn(floor: set<Cell>, x: int, lo: int, hi: int) returns (result: set<Cell>)
    ensures result == floor + Rect(x, x, lo, hi)
  {
    result := floor;
    var j := lo;
    while j <= hi
      invariant lo <= j || hi < lo
      invariant lo <= hi ==> j <= hi + 1
      invariant hi < lo ==> j == lo
      invariant result == floor + Rect(x, x, lo, j - 1)
      decreases hi - j
    {
      RectGrowZ(x, x, lo, j - 1);
      result := result + {Cell(x, 0, j)};
      j := j + 1;
    }
    if hi < lo {
      RectEmpty(x, x, lo, j - 1);
      RectEmpty(x, x, lo, hi);
    }
  }

  /**
    The first do-while loop: step z one unit toward end.z, then stamp the row,
    until z matches. It always ends at the bend (start.x, start.y, end.z)
    having added exactly the z leg.
   */
  method WalkZ(start: Cell, end: Cell, h: int, floor0: set<Cell>) returns (position: Cell, floor: set<Cell>)
    ensures position == Cell(start.x, start.y, end.z)
    ensures floor == floor0 + ZLeg(start, end, h)
  {
    position := start;
    floor := floor0;
    var first := true;
    while first || position.z != end.z
      invariant position.x == start.x && position.y == start.y
      invariant start.z <= end.z ==> start.z <= position.z <= end.z
      invariant end.z <= start.z ==> end.z <= position.z <= start.z
      invariant first ==> position == start && floor == floor0
      invariant !first && start.z != end.z ==> position.z != start.z
      invariant !first ==> floor == floor0 + Rect(start.x - h, start.x + h, SweepLo(start.z, position.z), SweepHi(start.z, position.z))
      decreases (if first then 1 else 0) + Abs(end.z - position.z)
    {
      var before := position.z;
      if end.z > position.z {
        position := Add(position, Cell(0, 0, 1));
      } else if end.z < position.z {
        position := Add(position, Cell(0, 0, -1));
      }
      if !first {
        if start.z < position.z {
          RectGrowZ(start.x - h, start.x + h, start.z + 1, before);
        } else if position.z < start.z {
          RectGrowZDown(start.x - h, start.x + h, before, start.z - 1);
        }
      }
      floor := StampRow(floor, position.x - h, position.x + h, position.z);
      first := false;
    }
  }

  /**
    The second do-while loop, started at the bend: step x one unit toward
    end.x, then stamp the column around z, until x matches. It ends at the
    end cell's x and z, having added exactly the x leg.
   */
  method WalkX(start: Cell, end: Cell, h: int, bend: Cell, floor0: set<Cell>) returns (position: Cell, floor: set<Cell>)
    requires bend == Cell(start.x, start.y, end.z)
    ensures position == Cell(end.x, start.y, end.z)
    ensures floor == floor0 + XLeg(start, end, h)
  {
    position := bend;
    floor := floor0;
    var first := true;
    while first || position.x != end.x
      invariant position.z == end.z && position.y == start.y
      invariant start.x <= end.x ==> start.x <= position.x <= end.x
      invariant end.x <= start.x ==> end.x <= position.x <= start.x
      invariant first ==> position == bend && floor == floor0
      invariant !first && start.x != end.x ==> position.x != start.x
      invariant !first ==> floor == floor0 + Rect(SweepLo(start.x, position.x), SweepHi(start.x, position.x), end.z - h, end.z + h)
      decreases (if first then 1 else 0) + Abs(end.x - position.x)
    {
      var before := position.x;
      if end.x > position.x {
        position := Add(position, Cell(1, 0, 0));
      } else if end.x < position.x {
        position := Add(position, Cell(-1, 0, 0));
      }
      if !first {
        if start.x < position.x {
          RectGrowX(start.x + 1, before, end.z - h, end.z + h);
        } else if position.x < start.x {
          RectGrowXDown(before, start.x - 1, end.z - h, end.z + h);
        }
      }
      floor := StampColumn(floor, position.x, position.z - h, position.z + h);
      first := false;
    }
  }

  /**
    The Corridor constructor: it keeps its arguments and builds its floor with
    the z walk followed by the x walk, which is exactly the L-shaped footprint.
   */
  method NewCorridor(start: Cell, end: Cell, width: int) returns (corridor: Corridor)
    ensures corridor.startPoint == start && corridor.endPoint == end && corridor.width == width
    ensures corridor.floor == ZLeg(start, end, Half(width)) + XLeg(start, end, Half(width))
    ensures corridor == MakeCorridor(start, end, width)
  {
    var h := Half(width);
    var bend, floor := WalkZ(start, end, h, {});
    var last;
    last, floor := WalkX(start, end, h, bend, floor);
    corridor := Corridor(start, end, width, floor);
  }

  /**
    Each leg visits one line per unit step toward the target (a single line
    when it does not move), always includes the target line, and includes its
    own starting line only when it does not move.
   */
  lemma SweepLines(a: int, b: int)
    ensures SweepLo(a, b) <= b <= SweepHi(a, b)
    ensures Count(SweepLo(a, b), SweepHi(a, b)) == if a == b then 1 else Abs(b - a)
    ensures SweepLo(a, b) <= a <= SweepHi(a, b) <==> a == b
  {
  }

  /** Every cell of a corridor lies on the ground. */
  lemma CorridorOnGround(start: Cell, end: Cell, width: int, c: Cell)
    requires c in CorridorFloor(start, end, width)
    ensures c.y == 0
  {
    var h := Half(width);
    RectMembership(start.x - h, start.x + h, SweepLo(start.z, end.z), SweepHi(start.z, end.z), c);
    RectMembership(SweepLo(start.x, end.x), SweepHi(start.x, end.x), end.z - h, end.z + h, c);
  }

  /** Each row the z leg stamps holds exactly the columns start.x - h .. start.x + h. */
  lemma ZLegRow(start: Cell, end: Cell, width: int, z: int, i: int)
    requires SweepLo(start.z, end.z) <= z <= SweepHi(start.z, end.z)
    ensures Cell(i, 0, z) in ZLeg(start, end, Half(width))
        <==> start.x - Half(width) <= i <= start.x + Half(width)
  {
    var h := Half(width);
    RectMembership(start.x - h, start.x + h, SweepLo(start.z, end.z), SweepHi(start.z, end.z), Cell(i, 0, z));
  }

  /** Each column the x leg stamps holds exactly the rows end.z - h .. end.z + h. */
  lemma XLegColumn(start: Cell, end: Cell, width: int, x: int, j: int)
    requires SweepLo(start.x, end.x) <= x <= SweepHi(start.x, end.x)
    ensures Cell(x, 0, j) in XLeg(start, end, Half(width))
        <==> end.z - Half(width) <= j <= end.z + Half(width)
  {
    var h := Half(width);
    RectMembership(SweepLo(start.x, end.x), SweepHi(start.x, end.x), end.z - h, end.z + h, Cell(x, 0, j));
  }

  /** For a non-negative width the end cell and the bend (start.x, end.z) are both floor. */
  lemma CorridorReachesEnd(start: Cell, end: Cell, width: int)
    requires width >= 0
    ensures Cell(end.x, 0, end.z) in CorridorFloor(start, end, width)
    ensures Cell(start.x, 0, end.z) in CorridorFloor(start, end, width)
  {
    var h := Half(width);
    RectMembership(SweepLo(start.x, end.x), SweepHi(start.x, end.x), end.z - h, end.z + h, Cell(end.x, 0, end.z));
    RectMembership(start.x - h, start.x + h, SweepLo(start.z, end.z), SweepHi(start.z, end.z), Cell(start.x, 0, end.z));
  }

  /** When the z values differ the z leg never stamps the starting row. */
  lemma StartRowSkipped(start: Cell, end: Cell, width: int, i: int)
    requires start.z != end.z
    ensures Cell(i, 0, start.z) !in ZLeg(start, end, Half(width))
  {
    var h := Half(width);
    RectMembership(start.x - h, start.x + h, SweepLo(start.z, end.z), SweepHi(start.z, end.z), Cell(i, 0, start.z));
  }

  /**
    A straight unit-width corridor from (0, 0, 0) to (0, 0, 3) covers rows 1
    to 3 of column 0 and not its own start cell.
   */
  lemma StraightCorridorExample()
    ensures CorridorFloor(Cell(0, 0, 0), Cell(0, 0, 3), 1) == {Cell(0, 0, 1), Cell(0, 0, 2), Cell(0, 0, 3)}
    ensures Cell(0, 0, 0) !in CorridorFloor(Cell(0, 0, 0), Cell(0, 0, 3), 1)
  {
    var f := CorridorFloor(Cell(0, 0, 0), Cell(0, 0, 3), 1);
    forall c | c in f ensures c in {Cell(0, 0, 1), Cell(0, 0, 2), Cell(0, 0, 3)} {
      RectMembership(0, 0, 1, 3, c);
      RectMembership(0, 0, 3, 3, c);
    }
    RectMembership(0, 0, 1, 3, Cell(0, 0, 1));
    RectMembership(0, 0, 1, 3, Cell(0, 0, 2));
    RectMembership(0, 0, 1, 3, Cell(0, 0, 3));
  }
}
