/**
 * The scans every 0h n0 rule is built on (q42/ohno/OhnoRule.java). Each
 * scan walks outwards from a tile in the four directions and stops at the
 * board's edge; all of them only read the board. The walk in one direction
 * is a method of its own here; the Java inlines it in each scan.
 */
module OhnoHelpers {
  import opened Wrappers
  import opened Tiles
  import opened Coords
  import opened Grids
  import opened Boards
  import opened OhnoScan

  /** The walk of `getAmountOfSeenTiles` in one direction: BLUE tiles until anything else or the edge. */
  method CountSeenIn(board: BoardState, c: Coord, d: Direction) returns (seen: nat)
    requires board.Filled()
    ensures seen == Seen(board.Snapshot(), c, d)
  {
    ghost var g := board.Snapshot();
    ghost var r := Ray(g, c, d);
    seen := 0;
    var i := 1;
    while true
      invariant 1 <= i <= |r| + 1
      invariant forall k :: 0 <= k < i - 1 ==> r[k] == BLUE
      invariant seen == i - 1
      decreases |r| + 1 - i
    {
      var searchCoord := Move(c, d, i);
      RayStep(g, c, d, i);
      if !board.IsCoordWithinBounds(searchCoord) {
        break;
      }
      var tile := board.GetTile(searchCoord);
      if tile != Success(Some(BLUE)) {
        break;
      }
      seen := seen + 1;
      i := i + 1;
    }
    BlueRunUnique(r, i - 1);
  }

  /** `getAmountOfSeenTiles`: the BLUE tiles in an unbroken line from `c` in each direction. */
  method GetAmountOfSeenTiles(board: BoardState, c: Coord) returns (seen: nat)
    requires board.Filled()
    ensures seen == SeenCount(board.Snapshot(), c)
  {
    ghost var g := board.Snapshot();
    seen := 0;
    for j := 0 to |Directions|
      invariant seen == SeenOver(g, c, Directions[..j])
    {
      var inDirection := CountSeenIn(board, c, Directions[j]);
      assert board.Snapshot() == g;
      seen := seen + inDirection;
      assert Directions[..j + 1][..j] == Directions[..j];
    }
    assert Directions[..|Directions|] == Directions;
  }

  /** The walk of `getOpenEndings` in one direction: past BLUE tiles, stopping at GREY (an ending), RED or the edge. */
  method FindOpenEnding(board: BoardState, c: Coord, d: Direction) returns (ending: Option<Coord>)
    requires board.Filled()
    ensures ending == OpenEnding(board.Snapshot(), c, d)
  {
    ghost var g := board.Snapshot();
    ghost var r := Ray(g, c, d);
    ending := None;
    var i := 1;
    while true
      invariant 1 <= i <= |r| + 1
      invariant forall k :: 0 <= k < i - 1 ==> r[k] == BLUE
      invariant ending == None
      decreases |r| + 1 - i
    {
      var searchCoord := Move(c, d, i);
      RayStep(g, c, d, i);
      if !board.IsCoordWithinBounds(searchCoord) {
        break;
      }
      var tile := board.GetTile(searchCoord);
      var t := tile.value.value;
      assert t == r[i - 1];
      if t == GREY {
        OpenEndingFound(g, c, d, i);
        return Some(searchCoord);
      } else if t == RED {
        break;
      }
      i := i + 1;
    }
    OpenEndingMissing(g, c, d, i);
  }

  /** `getOpenEndings`: per direction, the GREY tile that ends the BLUE run, if any. */
  method GetOpenEndings(board: BoardState, c: Coord) returns (openEndings: set<Coord>)
    requires board.Filled()
    ensures openEndings == OpenEndings(board.Snapshot(), c)
  {
    ghost var g := board.Snapshot();
    openEndings := {};
    for j := 0 to |Directions|
      invariant openEndings == OpenEndingsOver(g, c, Directions[..j])
    {
      var ending := FindOpenEnding(board, c, Directions[j]);
      assert board.Snapshot() == g;
      OpenEndingsStep(g, c, j);
      if ending.Some? {
        openEndings := openEndings + {ending.value};
      }
    }
    assert Directions[..|Directions|] == Directions;
  }

  /** The walk of the potential scans in one direction: GREY and BLUE tiles until RED or the edge. */
  method CollectPotentialIn(board: BoardState, c: Coord, d: Direction) returns (potentials: set<Coord>)
    requires board.Filled()
    ensures potentials == PotentialIn(board.Snapshot(), c, d)
  {
    ghost var g := board.Snapshot();
    ghost var r := Ray(g, c, d);
    potentials := {};
    var i := 1;
    while true
      invariant 1 <= i <= |r| + 1
      invariant forall k :: 0 <= k < i - 1 ==> r[k] != RED
      invariant potentials == set k | 1 <= k < i :: Move(c, d, k)
      decreases |r| + 1 - i
    {
      var searchCoord := Move(c, d, i);
      RayStep(g, c, d, i);
      if !board.IsCoordWithinBounds(searchCoord) {
        break;
      }
      var tile := board.GetTile(searchCoord);
      var t := tile.value.value;
      assert t == r[i - 1];
      if t == RED {
        break;
      }
      assert (set k | 1 <= k < i + 1 :: Move(c, d, k)) == potentials + {searchCoord};
      potentials := potentials + {searchCoord};
      i := i + 1;
    }
    PotentialInFound(g, c, d, i);
  }

  /** `getPotentialSeen`: every tile `c` could still see, before the first RED in each direction. */
  method GetPotentialSeen(board: BoardState, c: Coord) returns (potentials: set<Coord>)
    requires board.Filled()
    ensures potentials == PotentialSeen(board.Snapshot(), c)
  {
    ghost var g := board.Snapshot();
    potentials := {};
    for j := 0 to |Directions|
      invariant potentials == PotentialOver(g, c, Directions[..j], None)
    {
      var inDirection := CollectPotentialIn(board, c, Directions[j]);
      assert board.Snapshot() == g;
      potentials := potentials + inDirection;
      assert Directions[..j + 1][..j] == Directions[..j];
    }
    assert Directions[..|Directions|] == Directions;
  }

  /** `getPotentialSeenExcluded`: the same, skipping the direction `exclusion`. */
  method GetPotentialSeenExcluded(board: BoardState, c: Coord, exclusion: Direction) returns (potentials: set<Coord>)
    requires board.Filled()
    ensures potentials == PotentialSeenExcluded(board.Snapshot(), c, exclusion)
  {
    ghost var g := board.Snapshot();
    potentials := {};
    for j := 0 to |Directions|
      invariant potentials == PotentialOver(g, c, Directions[..j], Some(exclusion))
    {
      var direction := Directions[j];
      assert Directions[..j + 1][..j] == Directions[..j];
      if direction == exclusion {
        continue;
      }
      var inDirection := CollectPotentialIn(board, c, direction);
      assert board.Snapshot() == g;
      potentials := potentials + inDirection;
    }
    assert Directions[..|Directions|] == Directions;
  }
}
