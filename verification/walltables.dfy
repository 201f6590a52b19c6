/**
  The wall shapes and the literal neighbour-pattern lookup lists of
  WallTypesCheck. Each list keeps the source's entries in the source's order
  (duplicates included); the binary form of every entry is given beside it.
 */
module WallTables {

  /** The wall shape labels the classifier hands to the tile painter. */
  datatype WallType =
    | None | Up | UpRight | Right | DownRight | Down | DownLeft | Left | UpLeft
    | ExternalCornerDownLeft | ExternalCornerDownRight | ExternalCornerUpLeft | ExternalCornerUpRight

  // Four-bit patterns, bits in the order up, right, down, left (up is the most significant).

  const WallTop: seq<int> := [
    2,   // 0b0010
    10,  // 0b1010
    14,  // 0b1110
    11,  // 0b1011
    7    // 0b0111
  ]
  const WallSideLeft: seq<int> := [4]                 // 0b0100
  const WallSideRight: seq<int> := [1]                // 0b0001
  const WallBottom: seq<int> := [8]                   // 0b1000
  const WallExternalCornerDownLeft: seq<int> := [12]  // 0b1100
  const WallExternalCornerDownRight: seq<int> := [9]  // 0b1001
  const WallExternalCornerUpLeft: seq<int> := [6]     // 0b0110
  const WallExternalCornerUpRight: seq<int> := [3]    // 0b0011

  /** Declared beside the others but consulted by neither classifier. */
  const WallFull: seq<int> := [
    13,  // 0b1101
    5,   // 0b0101
    13,  // 0b1101
    9    // 0b1001
  ]

  // Eight-bit patterns, bits in the order up, up-right, right, right-down,
  // down, down-left, left, left-up (up is the most significant).

  const WallDiagonalCornerDownLeft: seq<int> := [64]  // 0b01000000
  const WallDiagonalCornerDownRight: seq<int> := [1]  // 0b00000001
  const WallDiagonalCornerUpLeft: seq<int> := [
    16,  // 0b00010000
    80   // 0b01010000
  ]
  const WallDiagonalCornerUpRight: seq<int> := [
    4,   // 0b00000100
    5    // 0b00000101
  ]

  const WallFullEightDirections: seq<int> := [
    20,   // 0b00010100
    228,  // 0b11100100
    147,  // 0b10010011
    116,  // 0b01110100
    23,   // 0b00010111
    22,   // 0b00010110
    52,   // 0b00110100
    21,   // 0b00010101
    84,   // 0b01010100
    18,   // 0b00010010
    36,   // 0b00100100
    19,   // 0b00010011
    100,  // 0b01100100
    151,  // 0b10010111
    244,  // 0b11110100
    150,  // 0b10010110
    180,  // 0b10110100
    229,  // 0b11100101
    211,  // 0b11010011
    245,  // 0b11110101
    215,  // 0b11010111
    215,  // 0b11010111
    245,  // 0b11110101
    117,  // 0b01110101
    87,   // 0b01010111
    101,  // 0b01100101
    83,   // 0b01010011
    82,   // 0b01010010
    37,   // 0b00100101
    53,   // 0b00110101
    86,   // 0b01010110
    213,  // 0b11010101
    212,  // 0b11010100
    149   // 0b10010101
  ]

  const WallBottmEightDirections: seq<int> := [65]  // 0b01000001

  /** The four-bit list the cardinal classifier consults for each shape (empty for shapes it never yields). */
  function CardinalTable(t: WallType): seq<int>
  {
    match t
    case Up => WallTop
    case Right => WallSideRight
    case Down => WallBottom
    case Left => WallSideLeft
    case ExternalCornerDownLeft => WallExternalCornerDownLeft
    case ExternalCornerDownRight => WallExternalCornerDownRight
    case ExternalCornerUpLeft => WallExternalCornerUpLeft
    case ExternalCornerUpRight => WallExternalCornerUpRight
    case _ => []
  }

  /**
    The eight-bit list the corner classifier consults for each shape it can
    yield besides None (empty for the rest). The "fully enclosed" list, which
    also yields None, is kept apart.
   */
  function CornerTable(t: WallType): seq<int>
  {
    match t
    case DownLeft => WallDiagonalCornerDownLeft
    case DownRight => WallDiagonalCornerDownRight
    case UpLeft => WallDiagonalCornerUpLeft
    case UpRight => WallDiagonalCornerUpRight
    case Down => WallBottmEightDirections
    case _ => []
  }

  /** Every cardinal entry is a four-bit value and every eight-direction entry an eight-bit value. */
  lemma TablesFitTheirWidth(t: WallType)
    ensures forall m :: m in CardinalTable(t) ==> 0 <= m < 16
    ensures forall m :: m in CornerTable(t) ==> 0 <= m < 256
    ensures forall m :: m in WallFullEightDirections ==> 0 <= m < 256
    ensures forall m :: m in WallFull ==> 0 <= m < 16
  {
  }

  /** No four-bit pattern belongs to two cardinal shapes, so the order of the tests does not matter. */
  lemma CardinalTablesDisjoint(t: WallType, u: WallType, m: int)
    requires t != u
    ensures !(m in CardinalTable(t) && m in CardinalTable(u))
  {
  }

  /** Every entry of the diagonal-corner and bottom eight-direction lists. */
  const CornerEntries: set<int> := {64, 1, 16, 80, 4, 5, 65}

  /** CornerEntries holds exactly the entries of the lists CornerTable hands out. */
  lemma CornerEntriesAreTheCornerTables()
    ensures forall m :: m in CornerEntries <==> exists t :: m in CornerTable(t)
  {
    forall m | m in CornerEntries ensures exists t :: m in CornerTable(t) {
      if m == 64 { assert m in CornerTable(DownLeft); }
      else if m == 1 { assert m in CornerTable(DownRight); }
      else if m == 16 || m == 80 { assert m in CornerTable(UpLeft); }
      else if m == 4 || m == 5 { assert m in CornerTable(UpRight); }
      else { assert m in CornerTable(Down); }
    }
  }

  /** No entry of the fully enclosed list is a diagonal-corner or bottom entry. */
  lemma FullEightAvoidsCornerEntries()
    ensures forall i :: 0 <= i < |WallFullEightDirections| ==> WallFullEightDirections[i] !in CornerEntries
  {
  }

  /**
    No eight-bit pattern belongs to two of the corner lists, and none of them
    shares a pattern with the fully enclosed list.
   */
  lemma CornerTablesDisjoint(t: WallType, u: WallType, m: int)
    requires t != u
    ensures !(m in CornerTable(t) && m in CornerTable(u))
    ensures !(m in CornerTable(t) && m in WallFullEightDirections)
  {
    if m in WallFullEightDirections {
      FullEightAvoidsCornerEntries();
      var i :| 0 <= i < |WallFullEightDirections| && WallFullEightDirections[i] == m;
      assert m !in CornerEntries;
    }
  }

  /**
    The fully enclosed list holds 0b11010111 exactly at positions 20 and 21
    and 0b11110101 exactly at positions 19 and 22; dropping positions 21 and
    22 leaves a 32-entry list with the same membership.
   */
  lemma FullEightDirectionsDuplicates()
    ensures |WallFullEightDirections| == 34
    ensures forall i :: 0 <= i < 34 && WallFullEightDirections[i] == 215 <==> i == 20 || i == 21
    ensures forall i :: 0 <= i < 34 && WallFullEightDirections[i] == 245 <==> i == 19 || i == 22
    ensures var dedup := WallFullEightDirections[..21] + WallFullEightDirections[23..];
      && |dedup| == 32
      && (forall m :: m in dedup <==> m in WallFullEightDirections)
  {
    var w := WallFullEightDirections;
    var head, middle, tail := w[..21], w[21..23], w[23..];
    assert w == head + middle + tail;
    assert middle == [w[20], w[19]];
    assert w[20] in head && w[19] in head;
    forall m ensures m in head + tail <==> m in w {
      if m in middle {
        assert m in head;
      }
    }
  }

  /** The unused WallFull list repeats 0b1101 and shares 0b1001 with the external down-right corner. */
  lemma WallFullOverlaps()
    ensures WallFull[0] == WallFull[2] == 13
    ensures 9 in WallFull && 9 in WallExternalCornerDownRight
  {
  }
}
