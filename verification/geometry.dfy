/**
  Integer grid geometry shared by every component: the Vector3Int cells the
  generator works with, C#'s truncating halving, axis-aligned regions
  (BoundsInt) and filled cell rectangles.
 */
module Geometry {

  /** A Vector3Int. The generator keeps y == 0 for every cell it produces. */
  datatype Cell = Cell(x: int, y: int, z: int)

  function Add(a: Cell, b: Cell): Cell
  {
    Cell(a.x + b.x, a.y + b.y, a.z + b.z)
  }

  function Abs(n: int): nat
  {
    if n < 0 then -n else n
  }

  function Max(a: int, b: int): int
  {
    if a < b then b else a
  }

  /**
    C#'s `n / 2` on an int: the quotient truncated toward zero (Dafny's `/`
    rounds toward negative infinity for negative dividends). Twice the result
    lies between 0 and n and is within one of n.
   */
  function Half(n: int): (h: int)
    ensures n >= 0 ==> 0 <= 2 * h <= n
    ensures n < 0 ==> n <= 2 * h <= 0
    ensures Abs(n - 2 * h) <= 1
  {
    if n >= 0 then n / 2 else -((-n) / 2)
  }

  /** The number of integers in the closed interval [lo, hi]. */
  function Count(lo: int, hi: int): nat
  {
    if hi < lo then 0 else hi - lo + 1
  }

  /** All ground cells (y == 0) with x in [x0, x1] and z in [z0, z1], both ends inclusive. */
  function Rect(x0: int, x1: int, z0: int, z1: int): set<Cell>
  {
    set i, j | x0 <= i <= x1 && z0 <= j <= z1 :: Cell(i, 0, j)
  }

  lemma RectMembership(x0: int, x1: int, z0: int, z1: int, c: Cell)
    ensures c in Rect(x0, x1, z0, z1) <==> c.y == 0 && x0 <= c.x <= x1 && z0 <= c.z <= z1
  {
    if c.y == 0 && x0 <= c.x <= x1 && z0 <= c.z <= z1 {
      assert c == Cell(c.x, 0, c.z);
    }
  }

  /** A rectangle with an empty side holds no cell. */
  lemma RectEmpty(x0: int, x1: int, z0: int, z1: int)
    requires x1 < x0 || z1 < z0
    ensures Rect(x0, x1, z0, z1) == {}
  {
    forall c | c in Rect(x0, x1, z0, z1) ensures false {
      RectMembership(x0, x1, z0, z1, c);
    }
  }

  /** One more column on the high-x side. */
  lemma RectGrowX(x0: int, x1: int, z0: int, z1: int)
    requires x0 <= x1 + 1
    ensures Rect(x0, x1 + 1, z0, z1) == Rect(x0, x1, z0, z1) + Rect(x1 + 1, x1 + 1, z0, z1)
  {
  }

  /** One more row on the high-z side. */
  lemma RectGrowZ(x0: int, x1: int, z0: int, z1: int)
    requires z0 <= z1 + 1
    ensures Rect(x0, x1, z0, z1 + 1) == Rect(x0, x1, z0, z1) + Rect(x0, x1, z1 + 1, z1 + 1)
  {
  }

  /** One more column on the low-x side. */
  lemma RectGrowXDown(x0: int, x1: int, z0: int, z1: int)
    requires x0 - 1 <= x1
    ensures Rect(x0 - 1, x1, z0, z1) == Rect(x0, x1, z0, z1) + Rect(x0 - 1, x0 - 1, z0, z1)
  {
  }

  /** One more row on the low-z side. */
  lemma RectGrowZDown(x0: int, x1: int, z0: int, z1: int)
    requires z0 - 1 <= z1
    ensures Rect(x0, x1, z0 - 1, z1) == Rect(x0, x1, z0, z1) + Rect(x0, x1, z0 - 1, z0 - 1)
  {
  }

  /** Rectangles whose z ranges do not overlap share no cell. */
  lemma RectsApartInZ(x0: int, x1: int, z0: int, z1: int, w0: int, w1: int)
    requires z1 < w0
    ensures Rect(x0, x1, z0, z1) !! Rect(x0, x1, w0, w1)
  {
  }

  /** A single row of a rectangle holds one cell per column. */
  lemma {:induction false} RowCardinality(x0: int, x1: int, z: int)
    ensures |Rect(x0, x1, z, z)| == Count(x0, x1)
    decreases Count(x0, x1)
  {
    if x1 < x0 {
      RectEmpty(x0, x1, z, z);
    } else {
      RowCardinality(x0, x1 - 1, z);
      RectGrowX(x0, x1 - 1, z, z);
      assert Rect(x1, x1, z, z) == {Cell(x1, 0, z)} by {
        forall c | c in Rect(x1, x1, z, z) ensures c == Cell(x1, 0, z) {
          RectMembership(x1, x1, z, z, c);
        }
      }
      assert Cell(x1, 0, z) !in Rect(x0, x1 - 1, z, z) by {
        RectMembership(x0, x1 - 1, z, z, Cell(x1, 0, z));
      }
    }
  }

  /** A filled rectangle holds (columns x rows) cells. */
  lemma {:induction false} RectCardinality(x0: int, x1: int, z0: int, z1: int)
    ensures |Rect(x0, x1, z0, z1)| == Count(x0, x1) * Count(z0, z1)
    decreases Count(z0, z1)
  {
    if z1 < z0 {
      RectEmpty(x0, x1, z0, z1);
    } else {
      var lower, top := Rect(x0, x1, z0, z1 - 1), Rect(x0, x1, z1, z1);
      var cols, rows := Count(x0, x1), Count(z0, z1 - 1);
      RectCardinality(x0, x1, z0, z1 - 1);
      RowCardinality(x0, x1, z1);
      RectGrowZ(x0, x1, z0, z1 - 1);
      RectsApartInZ(x0, x1, z0, z1 - 1, z1, z1);
      DisjointUnionSize(lower, top);
      AddOneRow(cols, rows);
      assert Count(z0, z1) == rows + 1;
    }
  }

  lemma DisjointUnionSize(a: set<Cell>, b: set<Cell>)
    requires a !! b
    ensures |a + b| == |a| + |b|
  {
  }

  lemma AddOneRow(cols: nat, rows: nat)
    ensures cols * (rows + 1) == cols * rows + cols
  {
  }

  /**
    A BoundsInt: an origin and a size per axis. The generator only ever looks
    at the two horizontal axes x and z; y is carried along unchanged.
   */
  datatype Region = Region(min: Cell, size: Cell)

  /** Grid position (x, z) lies in the half-open extent of region r on both horizontal axes. */
  predicate Covers(r: Region, x: int, z: int)
  {
    r.min.x <= x < r.min.x + r.size.x && r.min.z <= z < r.min.z + r.size.z
  }

  ghost predicate Inside(a: Region, b: Region)
  {
    forall x, z :: Covers(a, x, z) ==> Covers(b, x, z)
  }

  ghost predicate Disjoint(a: Region, b: Region)
  {
    forall x, z :: !(Covers(a, x, z) && Covers(b, x, z))
  }
}
