/**
  The wall classifier: `FindWalls`, the neighbour bitmasks built by
  `CheckWallTypeCardinal` / `CheckWallTypeCorner`, their first-match table
  lookups, and the two passes of `CreateWalls`.
 */
module Walls {
  import opened Geometry
  import opened WallTables

  /** Up, right, down, left: the order of the four-bit pattern, up first. */
  const CardinalDirs: seq<Cell> := [Cell(0, 0, 1), Cell(1, 0, 0), Cell(0, 0, -1), Cell(-1, 0, 0)]

  /** Up, up-right, right, right-down, down, down-left, left, left-up: the order of the eight-bit pattern. */
  const EightDirs: seq<Cell> := [
    Cell(0, 0, 1), Cell(1, 0, 1), Cell(1, 0, 0), Cell(1, 0, -1),
    Cell(0, 0, -1), Cell(-1, 0, -1), Cell(-1, 0, 0), Cell(-1, 0, 1)
  ]

  function Neg(d: Cell): Cell
  {
    Cell(-d.x, -d.y, -d.z)
  }

  function Pow2(n: nat): (p: nat)
    ensures p >= 1
  {
    if n == 0 then 1 else 2 * Pow2(n - 1)
  }

  /** Bit i of n, counting from the least significant bit: the parity left after i halvings. */
  predicate TestBit(n: nat, i: nat)
  {
    if i == 0 then n % 2 == 1 else TestBit(n / 2, i - 1)
  }

  /**
    `Convert.ToInt32(s, 2)` on a string of '1' (true) and '0' (false)
    characters: the first character is the most significant bit.
   */
  function FromBinary(bits: seq<bool>): (n: nat)
    ensures n < Pow2(|bits|)
  {
    if |bits| == 0 then 0
    else 2 * FromBinary(bits[..|bits| - 1]) + (if bits[|bits| - 1] then 1 else 0)
  }

  /** The len-character binary spelling of n, most significant bit first (the inverse of FromBinary). */
  function ToBinary(n: nat, len: nat): (bits: seq<bool>)
    ensures |bits| == len
  {
    if len == 0 then [] else ToBinary(n / 2, len - 1) + [n % 2 == 1]
  }

  lemma {:induction false} BinaryRoundTrip(bits: seq<bool>)
    ensures ToBinary(FromBinary(bits), |bits|) == bits
  {
    if |bits| > 0 {
      var prefix := bits[..|bits| - 1];
      var n := FromBinary(bits);
      assert n / 2 == FromBinary(prefix);
      BinaryRoundTrip(prefix);
      assert bits == prefix + [bits[|bits| - 1]];
    }
  }

  lemma {:induction false} NumberRoundTrip(n: nat, len: nat)
    requires n < Pow2(len)
    ensures FromBinary(ToBinary(n, len)) == n
  {
    if len > 0 {
      var bits := ToBinary(n, len);
      assert bits == ToBinary(n / 2, len - 1) + [n % 2 == 1];
      assert bits[..len - 1] == ToBinary(n / 2, len - 1);
      assert n / 2 < Pow2(len - 1);
      NumberRoundTrip(n / 2, len - 1);
      assert FromBinary(bits) == 2 * FromBinary(bits[..len - 1]) + (if bits[len - 1] then 1 else 0);
    }
  }

  /** Position k of a len-character spelling is bit len - 1 - k of the number. */
  lemma {:induction false} ToBinaryBit(n: nat, len: nat, k: nat)
    requires k < len
    ensures ToBinary(n, len)[k] <==> TestBit(n, len - 1 - k)
  {
    if k < len - 1 {
      ToBinaryBit(n / 2, len - 1, k);
    }
  }

  /** Character k of a binary string is bit |bits| - 1 - k of the number it spells. */
  lemma BinaryBit(bits: seq<bool>, k: nat)
    requires k < |bits|
    ensures bits[k] <==> TestBit(FromBinary(bits), |bits| - 1 - k)
  {
    BinaryRoundTrip(bits);
    ToBinaryBit(FromBinary(bits), |bits|, k);
  }

  /** The string CheckWallType builds: one character per direction, '1' exactly when pos + dir is floor. */
  function Occupancy(floor: set<Cell>, pos: Cell, dirs: seq<Cell>): seq<bool>
  {
    seq(|dirs|, k requires 0 <= k < |dirs| => Add(pos, dirs[k]) in floor)
  }

  lemma OccupancyBits(floor: set<Cell>, pos: Cell, dirs: seq<Cell>)
    ensures forall k :: 0 <= k < |dirs| ==>
      (TestBit(FromBinary(Occupancy(floor, pos, dirs)), |dirs| - 1 - k) <==> Add(pos, dirs[k]) in floor)
  {
    var bits := Occupancy(floor, pos, dirs);
    forall k | 0 <= k < |dirs|
      ensures TestBit(FromBinary(bits), |dirs| - 1 - k) <==> Add(pos, dirs[k]) in floor
    {
      BinaryBit(bits, k);
    }
  }

  /**
    The neighbour pattern of pos: one bit per direction, set exactly when
    pos + dir is floor, with the first listed direction as the most
    significant bit.
   */
  function NeighbourMask(floor: set<Cell>, pos: Cell, dirs: seq<Cell>): (m: nat)
    ensures m < Pow2(|dirs|)
    ensures forall k :: 0 <= k < |dirs| ==> (TestBit(m, |dirs| - 1 - k) <==> Add(pos, dirs[k]) in floor)
  {
    OccupancyBits(floor, pos, dirs);
    FromBinary(Occupancy(floor, pos, dirs))
  }

  /**
    The if/else chain of CheckWallTypeCardinal on a four-bit pattern. A shape
    is only returned for a pattern in its list, and None exactly when no list
    holds the pattern.
   */
  function ClassifyCardinal(mask: int): (t: WallType)
    ensures t != WallType.None ==> mask in CardinalTable(t)
    ensures t == WallType.None <==> forall u :: mask !in CardinalTable(u)
  {
    if mask in WallTop then Up
    else if mask in WallSideRight then Right
    else if mask in WallBottom then Down
    else if mask in WallSideLeft then Left
    else if mask in WallExternalCornerDownLeft then ExternalCornerDownLeft
    else if mask in WallExternalCornerDownRight then ExternalCornerDownRight
    else if mask in WallExternalCornerUpLeft then ExternalCornerUpLeft
    else if mask in WallExternalCornerUpRight then ExternalCornerUpRight
    else WallType.None
  }

  /**
    The if/else chain of CheckWallTypeCorner on an eight-bit pattern. The
    fully enclosed list yields None, like a miss, so None comes back exactly
    when no diagonal-corner or bottom list holds the pattern.
   */
  function ClassifyCorner(mask: int): (t: WallType)
    ensures t != WallType.None ==> mask in CornerTable(t)
    ensures t == WallType.None <==> forall u :: mask !in CornerTable(u)
  {
    if mask in WallDiagonalCornerDownLeft then DownLeft
    else if mask in WallDiagonalCornerDownRight then DownRight
    else if mask in WallDiagonalCornerUpLeft then UpLeft
    else if mask in WallDiagonalCornerUpRight then UpRight
    else if mask in WallFullEightDirections then WallType.None
    else if mask in WallBottmEightDirections then Down
    else WallType.None
  }

  /** Because the lists are disjoint, a cardinal pattern gets shape t exactly when t's list holds it. */
  lemma CardinalOrderIrrelevant(mask: int, t: WallType)
    requires t != WallType.None
    ensures ClassifyCardinal(mask) == t <==> mask in CardinalTable(t)
  {
    if mask in CardinalTable(t) && ClassifyCardinal(mask) != t {
      CardinalTablesDisjoint(t, ClassifyCardinal(mask), mask);
    }
  }

  /** Because the lists are disjoint, an eight-bit pattern gets shape t exactly when t's list holds it. */
  lemma CornerOrderIrrelevant(mask: int, t: WallType)
    requires t != WallType.None
    ensures ClassifyCorner(mask) == t <==> mask in CornerTable(t)
  {
    if mask in CornerTable(t) && ClassifyCorner(mask) != t {
      CornerTablesDisjoint(t, ClassifyCorner(mask), mask);
    }
  }

  /** Patterns 0b0000, 0b0101, 0b1101 and 0b1111 match no list; 0b0010 (floor just below) is a top wall. */
  lemma CardinalSpecialPatterns()
    ensures ClassifyCardinal(0) == WallType.None && ClassifyCardinal(5) == WallType.None
    ensures ClassifyCardinal(13) == WallType.None && ClassifyCardinal(15) == WallType.None
    ensures ClassifyCardinal(2) == Up
  {
  }

  /**
    CheckWallTypeCardinal: the shape whose four-bit list holds the pattern of
    pos's floor neighbours up, right, down and left; None when no list does.
   */
  function CheckWallTypeCardinal(floor: set<Cell>, pos: Cell): (t: WallType)
    ensures forall u :: u != WallType.None ==> (t == u <==> NeighbourMask(floor, pos, CardinalDirs) in CardinalTable(u))
    ensures t == WallType.None <==> forall u :: NeighbourMask(floor, pos, CardinalDirs) !in CardinalTable(u)
  {
    var m := NeighbourMask(floor, pos, CardinalDirs);
    forall u | u != WallType.None ensures ClassifyCardinal(m) == u <==> m in CardinalTable(u) {
      CardinalOrderIrrelevant(m, u);
    }
    ClassifyCardinal(NeighbourMask(floor, pos, CardinalDirs))
  }

  /**
    CheckWallTypeCorner: the shape whose eight-bit diagonal-corner or bottom
    list holds the pattern of pos's eight floor neighbours; None when none
    does, which includes every fully enclosed pattern.
   */
  function CheckWallTypeCorner(floor: set<Cell>, pos: Cell): (t: WallType)
    ensures forall u :: u != WallType.None ==> (t == u <==> NeighbourMask(floor, pos, EightDirs) in CornerTable(u))
    ensures t == WallType.None <==> forall u :: NeighbourMask(floor, pos, EightDirs) !in CornerTable(u)
  {
    var m := NeighbourMask(floor, pos, EightDirs);
    forall u | u != WallType.None ensures ClassifyCorner(m) == u <==> m in CornerTable(u) {
      CornerOrderIrrelevant(m, u);
    }
    ClassifyCorner(NeighbourMask(floor, pos, EightDirs))
  }

  /**
    FindWalls: every neighbour floor + dir (dir from dirs) that is neither
    floor nor already claimed by an earlier pass.
   */
  function FindWalls(floor: set<Cell>, dirs: seq<Cell>, claimed: set<Cell>): (walls: set<Cell>)
    ensures walls !! floor && walls !! claimed
    ensures forall p, k :: p in floor && 0 <= k < |dirs| && Add(p, dirs[k]) !in floor && Add(p, dirs[k]) !in claimed
              ==> Add(p, dirs[k]) in walls
  {
    set p, d | p in floor && d in dirs && Add(p, d) !in floor && Add(p, d) !in claimed :: Add(p, d)
  }

  /** Some neighbour of c in one of the given directions is floor. */
  ghost predicate Touches(floor: set<Cell>, c: Cell, dirs: seq<Cell>)
  {
    exists k :: 0 <= k < |dirs| && Add(c, dirs[k]) in floor
  }

  /** Both direction lists are closed under reversal, and every cardinal direction is among the eight. */
  lemma DirectionsReverse()
    ensures forall d :: d in CardinalDirs ==> Neg(d) in CardinalDirs && d in EightDirs
    ensures forall d :: d in EightDirs ==> Neg(d) in EightDirs
  {
  }

  /**
    With a direction list closed under reversal, FindWalls returns exactly the
    cells that are neither floor nor claimed and have a floor neighbour in one
    of the listed directions.
   */
  lemma FindWallsExactly(floor: set<Cell>, dirs: seq<Cell>, claimed: set<Cell>, c: Cell)
    requires forall d :: d in dirs ==> Neg(d) in dirs
    ensures c in FindWalls(floor, dirs, claimed) <==> c !in floor && c !in claimed && Touches(floor, c, dirs)
  {
    if c in FindWalls(floor, dirs, claimed) {
      var p, d :| p in floor && d in dirs && Add(p, d) !in floor && Add(p, d) !in claimed && c == Add(p, d);
      var k :| 0 <= k < |dirs| && dirs[k] == Neg(d);
      assert Add(c, dirs[k]) == p;
    }
    if c !in floor && c !in claimed && Touches(floor, c, dirs) {
      var k :| 0 <= k < |dirs| && Add(c, dirs[k]) in floor;
      var p := Add(c, dirs[k]);
      var j :| 0 <= j < |dirs| && dirs[j] == Neg(dirs[k]);
      assert Add(p, dirs[j]) == c;
    }
  }

  /** The two wall passes and their labels, as CreateWalls paints them. */
  datatype WallLayout = WallLayout(cardinal: set<Cell>, corner: set<Cell>, labels: map<Cell, WallType>)

  /** The labels of two disjoint passes: each cell classified by its own pass's classifier. */
  function Label(floor: set<Cell>, cardinal: set<Cell>, corner: set<Cell>): (m: map<Cell, WallType>)
    requires cardinal !! corner
    ensures m.Keys == cardinal + corner
    ensures forall c :: c in cardinal ==> m[c] == CheckWallTypeCardinal(floor, c)
    ensures forall c :: c in corner ==> m[c] == CheckWallTypeCorner(floor, c)
  {
    map c | c in cardinal + corner :: if c in cardinal then CheckWallTypeCardinal(floor, c) else CheckWallTypeCorner(floor, c)
  }

  /**
    CreateWalls: the four-direction pass with nothing claimed, then the
    eight-direction pass excluding the first pass's cells; each cell keeps the
    label of the pass that found it. The fill of the remaining map with None
    tiles is left to the painter.
   */
  function CreateWalls(floor: set<Cell>): (w: WallLayout)
    ensures w.cardinal !! w.corner
    ensures w.labels.Keys == w.cardinal + w.corner
    ensures forall c :: c in w.cardinal ==> w.labels[c] == CheckWallTypeCardinal(floor, c)
    ensures forall c :: c in w.corner ==> w.labels[c] == CheckWallTypeCorner(floor, c)
  {
    var cardinal := FindWalls(floor, CardinalDirs, {});
    var corner := FindWalls(floor, EightDirs, cardinal);
    WallLayout(cardinal, corner, Label(floor, cardinal, corner))
  }

  /**
    Every non-floor cell with a floor cell among its eight neighbours gets
    exactly one label, and no floor cell gets one.
   */
  lemma WallsAreTheBoundary(floor: set<Cell>, c: Cell)
    ensures c in CreateWalls(floor).labels <==> c !in floor && Touches(floor, c, EightDirs)
  {
    DirectionsReverse();
    var cardinal := FindWalls(floor, CardinalDirs, {});
    FindWallsExactly(floor, CardinalDirs, {}, c);
    FindWallsExactly(floor, EightDirs, cardinal, c);
    if c in cardinal {
      var k :| 0 <= k < 4 && Add(c, CardinalDirs[k]) in floor;
      assert EightDirs[2 * k] == CardinalDirs[k] by {
        if k == 0 {} else if k == 1 {} else if k == 2 {} else {}
      }
      assert Add(c, EightDirs[2 * k]) in floor;
    }
  }

  /**
    Which pass finds a cell: the four-direction pass takes the non-floor cells
    with floor straight up, right, down or left; the eight-direction pass takes
    the non-floor cells whose floor neighbours are all diagonal.
   */
  lemma WallPasses(floor: set<Cell>, c: Cell)
    ensures c in CreateWalls(floor).cardinal <==> c !in floor && Touches(floor, c, CardinalDirs)
    ensures c in CreateWalls(floor).corner
        <==> c !in floor && !Touches(floor, c, CardinalDirs) && Touches(floor, c, EightDirs)
  {
    DirectionsReverse();
    var cardinal := FindWalls(floor, CardinalDirs, {});
    FindWallsExactly(floor, CardinalDirs, {}, c);
    FindWallsExactly(floor, EightDirs, cardinal, c);
  }

  /** The value of one character: 1 for '1', 0 for '0'. */
  function Bit(b: bool): nat
  {
    if b then 1 else 0
  }

  /** Appending one character doubles the value and adds the new bit. */
  lemma FromBinaryStep(bits: seq<bool>, i: nat)
    requires i < |bits|
    ensures FromBinary(bits[..i + 1]) == 2 * FromBinary(bits[..i]) + Bit(bits[i])
  {
    assert bits[..i + 1][..i] == bits[..i];
  }

  /** A four-character pattern spelled out as a sum of powers of two. */
  lemma FourBitValue(bits: seq<bool>)
    requires |bits| == 4
    ensures FromBinary(bits) == 8 * Bit(bits[0]) + 4 * Bit(bits[1]) + 2 * Bit(bits[2]) + Bit(bits[3])
  {
    FromBinaryStep(bits, 0);
    FromBinaryStep(bits, 1);
    FromBinaryStep(bits, 2);
    FromBinaryStep(bits, 3);
    assert bits[..4] == bits;
  }

  /** An eight-character pattern spelled out as a sum of powers of two. */
  lemma EightBitValue(bits: seq<bool>)
    requires |bits| == 8
    ensures FromBinary(bits) ==
      128 * Bit(bits[0]) + 64 * Bit(bits[1]) + 32 * Bit(bits[2]) + 16 * Bit(bits[3])
      + 8 * Bit(bits[4]) + 4 * Bit(bits[5]) + 2 * Bit(bits[6]) + Bit(bits[7])
  {
    var high := bits[..4];
    FourBitValue(high);
    FromBinaryStep(bits, 4);
    FromBinaryStep(bits, 5);
    FromBinaryStep(bits, 6);
    FromBinaryStep(bits, 7);
    assert bits[..4] == high;
    var v4 := FromBinary(high);
    var v5 := FromBinary(bits[..5]);
    var v6 := FromBinary(bits[..6]);
    var v7 := FromBinary(bits[..7]);
    assert v5 == 2 * v4 + Bit(bits[4]);
    assert v6 == 2 * v5 + Bit(bits[5]);
    assert v7 == 2 * v6 + Bit(bits[6]);
    assert bits[..8] == bits;
  }

  /** The four-direction pattern of pos as a weighted sum of its neighbours' occupancy, up weighing 8. */
  lemma CardinalMaskValue(floor: set<Cell>, pos: Cell)
    ensures NeighbourMask(floor, pos, CardinalDirs) ==
      8 * Bit(Add(pos, CardinalDirs[0]) in floor) + 4 * Bit(Add(pos, CardinalDirs[1]) in floor)
      + 2 * Bit(Add(pos, CardinalDirs[2]) in floor) + Bit(Add(pos, CardinalDirs[3]) in floor)
  {
    var bits := Occupancy(floor, pos, CardinalDirs);
    assert forall k :: 0 <= k < 4 ==> bits[k] == (Add(pos, CardinalDirs[k]) in floor);
    FourBitValue(bits);
  }

  /** The eight-direction pattern of pos as a weighted sum of its neighbours' occupancy, up weighing 128. */
  lemma EightMaskValue(floor: set<Cell>, pos: Cell)
    ensures NeighbourMask(floor, pos, EightDirs) ==
      128 * Bit(Add(pos, EightDirs[0]) in floor) + 64 * Bit(Add(pos, EightDirs[1]) in floor)
      + 32 * Bit(Add(pos, EightDirs[2]) in floor) + 16 * Bit(Add(pos, EightDirs[3]) in floor)
      + 8 * Bit(Add(pos, EightDirs[4]) in floor) + 4 * Bit(Add(pos, EightDirs[5]) in floor)
      + 2 * Bit(Add(pos, EightDirs[6]) in floor) + Bit(Add(pos, EightDirs[7]) in floor)
  {
    var bits := Occupancy(floor, pos, EightDirs);
    assert forall k :: 0 <= k < 8 ==> bits[k] == (Add(pos, EightDirs[k]) in floor);
    EightBitValue(bits);
  }

  /** The non-zero four-bit patterns no cardinal list holds are 0b0101, 0b1101 and 0b1111. */
  lemma CardinalMisses(m: int)
    requires 0 < m < 16
    ensures ClassifyCardinal(m) == WallType.None <==> m in {5, 13, 15}
  {
  }

  /** A cell with floor on at least one side has a non-zero four-bit pattern. */
  lemma TouchingCardinalMask(floor: set<Cell>, c: Cell)
    requires Touches(floor, c, CardinalDirs)
    ensures 0 < NeighbourMask(floor, c, CardinalDirs) < 16
  {
    var k :| 0 <= k < 4 && Add(c, CardinalDirs[k]) in floor;
    CardinalMaskValue(floor, c);
    assert Bit(Add(c, CardinalDirs[k]) in floor) == 1;
    assert Pow2(4) == 16;
  }

  /**
    A cell of the four-direction pass (a non-floor cell with floor straight up,
    right, down or left, by WallPasses) has a non-zero pattern, and the
    cardinal classifier labels it None exactly for 0b0101, 0b1101 and 0b1111.
   */
  lemma CardinalPassPatterns(floor: set<Cell>, c: Cell)
    requires Touches(floor, c, CardinalDirs)
    ensures 0 < NeighbourMask(floor, c, CardinalDirs) < 16
    ensures CheckWallTypeCardinal(floor, c) == WallType.None <==> NeighbourMask(floor, c, CardinalDirs) in {5, 13, 15}
  {
    TouchingCardinalMask(floor, c);
    CardinalMisses(NeighbourMask(floor, c, CardinalDirs));
  }

  /** The patterns a cell of the eight-direction pass can have: only diagonal bits, at least one of them set. */
  const DiagonalOnlyPatterns: set<int> := {1, 4, 5, 16, 17, 20, 21, 64, 65, 68, 69, 80, 81, 84, 85}

  /** Of the fully enclosed list only 0b00010100, 0b00010101 and 0b01010100 carry no cardinal bit. */
  lemma FullEightDiagonalOnlyEntries()
    ensures forall i :: 0 <= i < |WallFullEightDirections| && WallFullEightDirections[i] in DiagonalOnlyPatterns
              ==> WallFullEightDirections[i] in {20, 21, 84}
  {
  }

  /** An eight-character pattern with every cardinal character '0' and some character '1' spells a diagonal-only value. */
  lemma DiagonalOnlyValue(bits: seq<bool>, k: int)
    requires |bits| == 8 && !bits[0] && !bits[2] && !bits[4] && !bits[6]
    requires 0 <= k < 8 && bits[k]
    ensures FromBinary(bits) in DiagonalOnlyPatterns
  {
    EightBitValue(bits);
  }

  /**
    A cell of the eight-direction pass (floor diagonally next to it but not
    straight up, right, down or left, by WallPasses) has only diagonal bits
    in its pattern. Of the fully enclosed list only 0b00010100, 0b00010101 and
    0b01010100 can ever be matched; every other entry has a cardinal bit set.
   */
  lemma CornerPassPatterns(floor: set<Cell>, c: Cell)
    requires !Touches(floor, c, CardinalDirs) && Touches(floor, c, EightDirs)
    ensures NeighbourMask(floor, c, EightDirs) in DiagonalOnlyPatterns
    ensures NeighbourMask(floor, c, EightDirs) in WallFullEightDirections ==> NeighbourMask(floor, c, EightDirs) in {20, 21, 84}
  {
    var bits := Occupancy(floor, c, EightDirs);
    assert EightDirs[0] == CardinalDirs[0] && EightDirs[2] == CardinalDirs[1];
    assert EightDirs[4] == CardinalDirs[2] && EightDirs[6] == CardinalDirs[3];
    assert !bits[0] && !bits[2] && !bits[4] && !bits[6];
    var k :| 0 <= k < 8 && Add(c, EightDirs[k]) in floor;
    assert bits[k];
    DiagonalOnlyValue(bits, k);
    var m := FromBinary(bits);
    if m in WallFullEightDirections {
      FullEightDiagonalOnlyEntries();
      var i :| 0 <= i < |WallFullEightDirections| && WallFullEightDirections[i] == m;
    }
  }

  /** A straight line of three floor cells along x, starting at o. */
  function LineAt(o: Cell): set<Cell>
  {
    {o, Add(o, Cell(1, 0, 0)), Add(o, Cell(2, 0, 0))}
  }

  /** The cell above the middle of a line has floor only below it (0b0010): a top wall. */
  lemma LineTopWall(o: Cell)
    ensures CheckWallTypeCardinal(LineAt(o), Add(o, Cell(1, 0, 1))) == Up
  {
    var line, p := LineAt(o), Add(o, Cell(1, 0, 1));
    assert Add(p, CardinalDirs[0]) !in line && Add(p, CardinalDirs[1]) !in line;
    assert Add(p, CardinalDirs[2]) in line && Add(p, CardinalDirs[3]) !in line;
    CardinalMaskValue(line, p);
    assert NeighbourMask(line, p, CardinalDirs) == 2;
    CardinalOrderIrrelevant(2, Up);
  }

  /** The cell below the middle of a line has floor only above it (0b1000): a bottom wall. */
  lemma LineBottomWall(o: Cell)
    ensures CheckWallTypeCardinal(LineAt(o), Add(o, Cell(1, 0, -1))) == Down
  {
    var line, p := LineAt(o), Add(o, Cell(1, 0, -1));
    assert Add(p, CardinalDirs[0]) in line && Add(p, CardinalDirs[1]) !in line;
    assert Add(p, CardinalDirs[2]) !in line && Add(p, CardinalDirs[3]) !in line;
    CardinalMaskValue(line, p);
    assert NeighbourMask(line, p, CardinalDirs) == 8;
    CardinalOrderIrrelevant(8, Down);
  }

  /** The cell past the left end has floor only to its right (0b0100): a left side wall. */
  lemma LineLeftWall(o: Cell)
    ensures CheckWallTypeCardinal(LineAt(o), Add(o, Cell(-1, 0, 0))) == Left
  {
    var line, p := LineAt(o), Add(o, Cell(-1, 0, 0));
    assert Add(p, CardinalDirs[0]) !in line && Add(p, CardinalDirs[1]) in line;
    assert Add(p, CardinalDirs[2]) !in line && Add(p, CardinalDirs[3]) !in line;
    CardinalMaskValue(line, p);
    assert NeighbourMask(line, p, CardinalDirs) == 4;
    CardinalOrderIrrelevant(4, Left);
  }

  /** The cell past the right end has floor only to its left (0b0001): a right side wall. */
  lemma LineRightWall(o: Cell)
    ensures CheckWallTypeCardinal(LineAt(o), Add(o, Cell(3, 0, 0))) == Right
  {
    var line, p := LineAt(o), Add(o, Cell(3, 0, 0));
    assert Add(p, CardinalDirs[0]) !in line && Add(p, CardinalDirs[1]) !in line;
    assert Add(p, CardinalDirs[2]) !in line && Add(p, CardinalDirs[3]) in line;
    CardinalMaskValue(line, p);
    assert NeighbourMask(line, p, CardinalDirs) == 1;
    CardinalOrderIrrelevant(1, Right);
  }

  /**
    The cell diagonally above-left of a line has floor only down-right of it
    (0b00010000): an up-left diagonal corner.
   */
  lemma LineUpLeftCorner(o: Cell)
    ensures CheckWallTypeCorner(LineAt(o), Add(o, Cell(-1, 0, 1))) == UpLeft
  {
    var line, p := LineAt(o), Add(o, Cell(-1, 0, 1));
    assert Add(p, EightDirs[0]) !in line && Add(p, EightDirs[1]) !in line;
    assert Add(p, EightDirs[2]) !in line && Add(p, EightDirs[3]) in line;
    assert Add(p, EightDirs[4]) !in line && Add(p, EightDirs[5]) !in line;
    assert Add(p, EightDirs[6]) !in line && Add(p, EightDirs[7]) !in line;
    EightMaskValue(line, p);
    assert NeighbourMask(line, p, EightDirs) == 16;
    CornerOrderIrrelevant(16, UpLeft);
  }
}
