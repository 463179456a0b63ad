/**
 * What a numbered 0h n0 tile sees, as functions of a board snapshot.
 *
 * From a tile, each direction is scanned outwards one tile at a time until
 * the scan leaves the board. The tiles met on the way form the tile's ray in
 * that direction: `Ray(g, c, d)[i]` is the tile at distance i + 1.
 */
module OhnoScan {
  import opened Wrappers
  import opened Tiles
  import opened Coords
  import opened Grids

  /**
   * How many steps from `c` in direction `d` stay on an n-by-n board before
   * the first step that leaves it.
   */
  function RayLength(n: nat, c: Coord, d: Direction): nat
  {
    match d
    case NORTH => if 0 <= c.x < n && 0 <= c.y - 1 < n then c.y else 0
    case EAST => if 0 <= c.y < n && 0 <= c.x + 1 < n then n - 1 - c.x else 0
    case SOUTH => if 0 <= c.x < n && 0 <= c.y + 1 < n then n - 1 - c.y else 0
    case WEST => if 0 <= c.y < n && 0 <= c.x - 1 < n then c.x else 0
  }

  /** Steps 1 .. RayLength stay on the board and the next step leaves it. */
  lemma RayLengthSpec(n: nat, c: Coord, d: Direction)
    ensures forall i :: 1 <= i <= RayLength(n, c, d) ==> InBounds(n, Move(c, d, i))
    ensures !InBounds(n, Move(c, d, RayLength(n, c, d) + 1))
  {
  }

  /** The tiles met scanning from `c` in direction `d`, nearest first. */
  function Ray(g: Grid, c: Coord, d: Direction): (r: seq<Tile>)
    requires IsGrid(g)
    ensures |r| == RayLength(|g|, c, d)
    ensures forall i :: 0 <= i < |r| ==> InBounds(|g|, Move(c, d, i + 1)) && r[i] == At(g, Move(c, d, i + 1))
  {
    RayLengthSpec(|g|, c, d);
    seq(RayLength(|g|, c, d), i requires 0 <= i < RayLength(|g|, c, d) => At(g, Move(c, d, i + 1)))
  }

  /**
   * One step of a scan that stops at the edge: step i (at most one past the
   * ray) is on the board exactly when it is within the ray, and then it
   * meets the ray's tile i - 1.
   */
  lemma RayStep(g: Grid, c: Coord, d: Direction, i: nat)
    requires IsGrid(g) && 1 <= i <= |Ray(g, c, d)| + 1
    ensures InBounds(|g|, Move(c, d, i)) <==> i <= |Ray(g, c, d)|
    ensures i <= |Ray(g, c, d)| ==> Ray(g, c, d)[i - 1] == At(g, Move(c, d, i))
  {
    RayLengthSpec(|g|, c, d);
  }

  /** The number of BLUE tiles at the start of `r`, before anything else. */
  function BlueRun(r: seq<Tile>): (k: nat)
    ensures k <= |r|
    ensures forall i :: 0 <= i < k ==> r[i] == BLUE
    ensures k < |r| ==> r[k] != BLUE
  {
    if |r| == 0 || r[0] != BLUE then 0 else 1 + BlueRun(r[1..])
  }

  /** The number of tiles at the start of `r` before the first RED one. */
  function UntilRed(r: seq<Tile>): (k: nat)
    ensures k <= |r|
    ensures forall i :: 0 <= i < k ==> r[i] != RED
    ensures k < |r| ==> r[k] == RED
  {
    if |r| == 0 || r[0] == RED then 0 else 1 + UntilRed(r[1..])
  }

  /** The two run lengths are determined by their characterisations. */
  lemma {:induction false} BlueRunUnique(r: seq<Tile>, k: nat)
    requires k <= |r|
    requires forall i :: 0 <= i < k ==> r[i] == BLUE
    requires k < |r| ==> r[k] != BLUE
    ensures BlueRun(r) == k
  {
  }

  lemma {:induction false} UntilRedUnique(r: seq<Tile>, k: nat)
    requires k <= |r|
    requires forall i :: 0 <= i < k ==> r[i] != RED
    requires k < |r| ==> r[k] == RED
    ensures UntilRed(r) == k
  {
  }

  /** A BLUE tile is never RED, so the BLUE run ends no later than the view. */
  lemma BlueRunWithinUntilRed(r: seq<Tile>)
    ensures BlueRun(r) <= UntilRed(r)
  {
  }

  // ---------------------------------------------------------------------
  // Seen tiles (`getAmountOfSeenTiles`)

  /** The BLUE tiles `c` sees in direction `d`. */
  function Seen(g: Grid, c: Coord, d: Direction): nat
    requires IsGrid(g)
  {
    BlueRun(Ray(g, c, d))
  }

  /** The BLUE tiles `c` sees over the directions `ds`. */
  function SeenOver(g: Grid, c: Coord, ds: seq<Direction>): nat
    requires IsGrid(g)
  {
    if ds == [] then 0 else SeenOver(g, c, ds[..|ds| - 1]) + Seen(g, c, ds[|ds| - 1])
  }

  /** All BLUE tiles `c` sees along its row and column. */
  function SeenCount(g: Grid, c: Coord): nat
    requires IsGrid(g)
  {
    SeenOver(g, c, Directions)
  }

  lemma SeenCountSum(g: Grid, c: Coord)
    requires IsGrid(g)
    ensures SeenCount(g, c) == Seen(g, c, NORTH) + Seen(g, c, EAST) + Seen(g, c, SOUTH) + Seen(g, c, WEST)
  {
    var ds3, ds2, ds1: seq<Direction> := [NORTH, EAST, SOUTH], [NORTH, EAST], [NORTH];
    assert Directions[..3] == ds3 && ds3[..2] == ds2 && ds2[..1] == ds1 && ds1[..0] == [];
    assert SeenOver(g, c, ds1) == Seen(g, c, NORTH);
    assert SeenOver(g, c, ds2) == SeenOver(g, c, ds1) + Seen(g, c, EAST);
    assert SeenOver(g, c, ds3) == SeenOver(g, c, ds2) + Seen(g, c, SOUTH);
  }

  // ---------------------------------------------------------------------
  // Open endings (`getOpenEndings`)

  /** The GREY tile right after the BLUE run in direction `d`, if the run ends in one. */
  function OpenEnding(g: Grid, c: Coord, d: Direction): (e: Option<Coord>)
    requires IsGrid(g)
    ensures e.Some? ==> e.value == Move(c, d, Seen(g, c, d) + 1)
  {
    var r := Ray(g, c, d);
    var k := BlueRun(r);
    if k < |r| && r[k] == GREY then Some(Move(c, d, k + 1)) else None
  }

  /** A GREY tile straight after a BLUE run is the open ending of that direction. */
  lemma OpenEndingFound(g: Grid, c: Coord, d: Direction, i: nat)
    requires IsGrid(g) && 1 <= i <= |Ray(g, c, d)|
    requires forall k :: 0 <= k < i - 1 ==> Ray(g, c, d)[k] == BLUE
    requires Ray(g, c, d)[i - 1] == GREY
    ensures OpenEnding(g, c, d) == Some(Move(c, d, i))
  {
    BlueRunUnique(Ray(g, c, d), i - 1);
  }

  /** A BLUE run that ends at the edge or at a RED tile leaves the direction without an open ending. */
  lemma OpenEndingMissing(g: Grid, c: Coord, d: Direction, i: nat)
    requires IsGrid(g) && 1 <= i <= |Ray(g, c, d)| + 1
    requires forall k :: 0 <= k < i - 1 ==> Ray(g, c, d)[k] == BLUE
    requires i <= |Ray(g, c, d)| ==> Ray(g, c, d)[i - 1] == RED
    ensures OpenEnding(g, c, d) == None
  {
    BlueRunUnique(Ray(g, c, d), i - 1);
  }

  /** The open endings over the directions `ds`. */
  function OpenEndingsOver(g: Grid, c: Coord, ds: seq<Direction>): set<Coord>
    requires IsGrid(g)
  {
    if ds == [] then {}
    else
      var d := ds[|ds| - 1];
      OpenEndingsOver(g, c, ds[..|ds| - 1]) + (if OpenEnding(g, c, d).Some? then {OpenEnding(g, c, d).value} else {})
  }

  /** Taking one more of the four directions adds that direction's open ending. */
  lemma OpenEndingsStep(g: Grid, c: Coord, j: nat)
    requires IsGrid(g) && j < |Directions|
    ensures OpenEndingsOver(g, c, Directions[..j + 1]) == OpenEndingsOver(g, c, Directions[..j]) +
      (if OpenEnding(g, c, Directions[j]).Some? then {OpenEnding(g, c, Directions[j]).value} else {})
  {
    assert Directions[..j + 1][..j] == Directions[..j];
  }

  function OpenEndings(g: Grid, c: Coord): set<Coord>
    requires IsGrid(g)
  {
    OpenEndingsOver(g, c, Directions)
  }

  /** `e` is an open ending of `c` over `ds` exactly when some direction of `ds` ends in it. */
  lemma {:induction false} OpenEndingsOverSpec(g: Grid, c: Coord, ds: seq<Direction>, e: Coord)
    requires IsGrid(g)
    ensures e in OpenEndingsOver(g, c, ds) <==> exists d :: d in ds && OpenEnding(g, c, d) == Some(e)
  {
    if ds != [] {
      var last := ds[|ds| - 1];
      OpenEndingsOverSpec(g, c, ds[..|ds| - 1], e);
      if e in OpenEndingsOver(g, c, ds[..|ds| - 1]) {
        var d :| d in ds[..|ds| - 1] && OpenEnding(g, c, d) == Some(e);
        assert d in ds;
      }
      if exists d :: d in ds && OpenEnding(g, c, d) == Some(e) {
        var d :| d in ds && OpenEnding(g, c, d) == Some(e);
        if d != last {
          assert d in ds[..|ds| - 1];
        }
      }
    }
  }

  /**
   * The open endings of `c`: for each direction whose BLUE run is followed by
   * a GREY tile on the board, that GREY tile.
   */
  lemma OpenEndingsSpec(g: Grid, c: Coord, e: Coord)
    requires IsGrid(g)
    ensures e in OpenEndings(g, c) <==> exists d :: OpenEnding(g, c, d) == Some(e)
    ensures e in OpenEndings(g, c) ==> InBounds(|g|, e) && At(g, e) == GREY
  {
    OpenEndingsOverSpec(g, c, Directions, e);
    if exists d :: OpenEnding(g, c, d) == Some(e) {
      var d :| OpenEnding(g, c, d) == Some(e);
      DirectionsComplete(d);
    }
  }

  // ---------------------------------------------------------------------
  // Potentially seen tiles (`getPotentialSeen`, `getPotentialSeenExcluded`)

  /** The tiles `c` could still see in direction `d`: everything before the first RED. */
  function PotentialIn(g: Grid, c: Coord, d: Direction): set<Coord>
    requires IsGrid(g)
  {
    set i | 1 <= i <= UntilRed(Ray(g, c, d)) :: Move(c, d, i)
  }

  /** A walk that stops at the edge or at a RED tile has collected exactly the tiles of `PotentialIn`. */
  lemma PotentialInFound(g: Grid, c: Coord, d: Direction, i: nat)
    requires IsGrid(g) && 1 <= i <= |Ray(g, c, d)| + 1
    requires forall k :: 0 <= k < i - 1 ==> Ray(g, c, d)[k] != RED
    requires i <= |Ray(g, c, d)| ==> Ray(g, c, d)[i - 1] == RED
    ensures PotentialIn(g, c, d) == set k | 1 <= k < i :: Move(c, d, k)
  {
    UntilRedUnique(Ray(g, c, d), i - 1);
  }

  /** The potentially seen tiles over the directions of `ds`, skipping `exclusion`. */
  function PotentialOver(g: Grid, c: Coord, ds: seq<Direction>, exclusion: Option<Direction>): set<Coord>
    requires IsGrid(g)
  {
    if ds == [] then {}
    else
      var d := ds[|ds| - 1];
      PotentialOver(g, c, ds[..|ds| - 1], exclusion) + (if exclusion == Some(d) then {} else PotentialIn(g, c, d))
  }

  function PotentialSeen(g: Grid, c: Coord): set<Coord>
    requires IsGrid(g)
  {
    PotentialOver(g, c, Directions, None)
  }

  function PotentialSeenExcluded(g: Grid, c: Coord, exclusion: Direction): set<Coord>
    requires IsGrid(g)
  {
    PotentialOver(g, c, Directions, Some(exclusion))
  }

  /** The number of potentially seen tiles over `ds`, skipping `exclusion`. */
  function PotentialCount(g: Grid, c: Coord, ds: seq<Direction>, exclusion: Option<Direction>): nat
    requires IsGrid(g)
  {
    if ds == [] then 0
    else
      var d := ds[|ds| - 1];
      PotentialCount(g, c, ds[..|ds| - 1], exclusion) + (if exclusion == Some(d) then 0 else UntilRed(Ray(g, c, d)))
  }

  /** The first m steps from `c` in direction `d`. */
  lemma {:induction false} StepsCardinality(c: Coord, d: Direction, m: nat)
    ensures |set i | 1 <= i <= m :: Move(c, d, i)| == m
  {
    if m > 0 {
      StepsCardinality(c, d, m - 1);
      var prev := set i | 1 <= i <= m - 1 :: Move(c, d, i);
      var all := set i | 1 <= i <= m :: Move(c, d, i);
      assert all == prev + {Move(c, d, m)};
    }
  }

  /** Membership in the potentially seen tiles over `ds`. */
  lemma {:induction false} PotentialOverSpec(g: Grid, c: Coord, ds: seq<Direction>, exclusion: Option<Direction>, p: Coord)
    requires IsGrid(g)
    ensures p in PotentialOver(g, c, ds, exclusion) <==>
      exists d, i :: d in ds && exclusion != Some(d) && 1 <= i <= UntilRed(Ray(g, c, d)) && p == Move(c, d, i)
  {
    if ds != [] {
      var last := ds[|ds| - 1];
      PotentialOverSpec(g, c, ds[..|ds| - 1], exclusion, p);
      if exists d, i :: d in ds && exclusion != Some(d) && 1 <= i <= UntilRed(Ray(g, c, d)) && p == Move(c, d, i) {
        var d, i :| d in ds && exclusion != Some(d) && 1 <= i <= UntilRed(Ray(g, c, d)) && p == Move(c, d, i);
        if d != last {
          assert d in ds[..|ds| - 1];
        }
      }
      if p in PotentialOver(g, c, ds[..|ds| - 1], exclusion) {
        var d, i :| d in ds[..|ds| - 1] && exclusion != Some(d) && 1 <= i <= UntilRed(Ray(g, c, d)) && p == Move(c, d, i);
        assert d in ds;
      }
    }
  }

  /**
   * Over distinct directions the potentially seen tiles of different
   * directions never coincide, so the set has one element per tile before
   * the first RED in each direction.
   */
  lemma {:induction false} PotentialOverCardinality(g: Grid, c: Coord, ds: seq<Direction>, exclusion: Option<Direction>)
    requires IsGrid(g)
    requires forall i, j :: 0 <= i < j < |ds| ==> ds[i] != ds[j]
    ensures |PotentialOver(g, c, ds, exclusion)| == PotentialCount(g, c, ds, exclusion)
  {
    if ds != [] {
      var d := ds[|ds| - 1];
      var prefix := ds[..|ds| - 1];
      PotentialOverCardinality(g, c, prefix, exclusion);
      if exclusion != Some(d) {
        var prev := PotentialOver(g, c, prefix, exclusion);
        var here := PotentialIn(g, c, d);
        StepsCardinality(c, d, UntilRed(Ray(g, c, d)));
        forall p | p in prev
          ensures p !in here
        {
          PotentialOverSpec(g, c, prefix, exclusion, p);
          var d', i' :| d' in prefix && exclusion != Some(d') && 1 <= i' <= UntilRed(Ray(g, c, d')) && p == Move(c, d', i');
          if p in here {
            var i :| 1 <= i <= UntilRed(Ray(g, c, d)) && p == Move(c, d, i);
            MoveDisjoint(c, d', d, i', i);
          }
        }
        assert prev * here == {};
      }
    }
  }

  /** `potentials.size()` in the exclusion rule: the tiles before the first RED in the other three directions. */
  lemma PotentialSeenExcludedSize(g: Grid, c: Coord, exclusion: Direction)
    requires IsGrid(g)
    ensures |PotentialSeenExcluded(g, c, exclusion)| == PotentialCount(g, c, Directions, Some(exclusion))
  {
    PotentialOverCardinality(g, c, Directions, Some(exclusion));
  }

  /** Every potentially seen tile lies on the board and is not RED; every seen tile is among them. */
  lemma PotentialSeenSpec(g: Grid, c: Coord, p: Coord)
    requires IsGrid(g)
    ensures p in PotentialSeen(g, c) ==> InBounds(|g|, p) && At(g, p) != RED
    ensures p in PotentialSeen(g, c) <==> exists d, i :: 1 <= i <= UntilRed(Ray(g, c, d)) && p == Move(c, d, i)
  {
    PotentialOverSpec(g, c, Directions, None, p);
    if exists d, i :: 1 <= i <= UntilRed(Ray(g, c, d)) && p == Move(c, d, i) {
      var d, i :| 1 <= i <= UntilRed(Ray(g, c, d)) && p == Move(c, d, i);
      DirectionsComplete(d);
      assert Ray(g, c, d)[i - 1] == At(g, p);
    }
  }

  // ---------------------------------------------------------------------
  // How the scans relate

  lemma {:induction false} OpenEndingsOverSize(g: Grid, c: Coord, ds: seq<Direction>)
    requires IsGrid(g)
    ensures |OpenEndingsOver(g, c, ds)| <= |ds|
  {
    if ds != [] {
      OpenEndingsOverSize(g, c, ds[..|ds| - 1]);
    }
  }

  /** There is at most one open ending per direction, so at most four. */
  lemma OpenEndingsAtMostFour(g: Grid, c: Coord)
    requires IsGrid(g)
    ensures |OpenEndings(g, c)| <= 4
  {
    OpenEndingsOverSize(g, c, Directions);
  }

  /** No scan returns the tile it starts from: every scan begins one step away. */
  lemma ScansExcludeStart(g: Grid, c: Coord)
    requires IsGrid(g)
    ensures c !in OpenEndings(g, c)
    ensures c !in PotentialSeen(g, c)
  {
    OpenEndingsSpec(g, c, c);
    PotentialSeenSpec(g, c, c);
    forall d: Direction, i: int | 1 <= i
      ensures c != Move(c, d, i)
    {
    }
  }

  /** An open ending lies before the first RED of its direction. */
  lemma OpenEndingBeforeRed(g: Grid, c: Coord, d: Direction)
    requires IsGrid(g) && OpenEnding(g, c, d).Some?
    ensures Seen(g, c, d) + 1 <= UntilRed(Ray(g, c, d))
  {
    BlueRunWithinUntilRed(Ray(g, c, d));
  }

  /**
   * The potentially seen tiles include every seen BLUE tile and every open
   * ending, so there are at least as many of them as seen tiles.
   */
  lemma PotentialSeenCovers(g: Grid, c: Coord)
    requires IsGrid(g)
    ensures forall d, i :: 1 <= i <= Seen(g, c, d) ==> Move(c, d, i) in PotentialSeen(g, c)
    ensures OpenEndings(g, c) <= PotentialSeen(g, c)
    ensures SeenCount(g, c) <= |PotentialSeen(g, c)|
  {
    forall d, i | 1 <= i <= Seen(g, c, d)
      ensures Move(c, d, i) in PotentialSeen(g, c)
    {
      BlueRunWithinUntilRed(Ray(g, c, d));
      PotentialSeenSpec(g, c, Move(c, d, i));
    }
    forall e | e in OpenEndings(g, c)
      ensures e in PotentialSeen(g, c)
    {
      OpenEndingsSpec(g, c, e);
      var d :| OpenEnding(g, c, d) == Some(e);
      OpenEndingBeforeRed(g, c, d);
      PotentialSeenSpec(g, c, e);
    }
    SeenWithinPotential(g, c, Directions);
    PotentialOverCardinality(g, c, Directions, None);
  }

  lemma {:induction false} SeenWithinPotential(g: Grid, c: Coord, ds: seq<Direction>)
    requires IsGrid(g)
    ensures SeenOver(g, c, ds) <= PotentialCount(g, c, ds, None)
  {
    if ds != [] {
      SeenWithinPotential(g, c, ds[..|ds| - 1]);
      BlueRunWithinUntilRed(Ray(g, c, ds[|ds| - 1]));
    }
  }

  /** Skipping a direction removes exactly that direction's tiles. */
  lemma PotentialSeenExcludedDifference(g: Grid, c: Coord, exclusion: Direction)
    requires IsGrid(g)
    ensures PotentialSeenExcluded(g, c, exclusion) == PotentialSeen(g, c) - PotentialIn(g, c, exclusion)
  {
    forall p
      ensures p in PotentialSeenExcluded(g, c, exclusion) <==> p in PotentialSeen(g, c) && p !in PotentialIn(g, c, exclusion)
    {
      PotentialOverSpec(g, c, Directions, Some(exclusion), p);
      PotentialOverSpec(g, c, Directions, None, p);
      if p in PotentialSeenExcluded(g, c, exclusion) && p in PotentialIn(g, c, exclusion) {
        var d, i :| d in Directions && Some(exclusion) != Some(d) && 1 <= i <= UntilRed(Ray(g, c, d)) && p == Move(c, d, i);
        var j :| 1 <= j <= UntilRed(Ray(g, c, exclusion)) && p == Move(c, exclusion, j);
        MoveDisjoint(c, d, exclusion, i, j);
      }
      if p in PotentialSeen(g, c) && p !in PotentialIn(g, c, exclusion) {
        var d, i :| d in Directions && 1 <= i <= UntilRed(Ray(g, c, d)) && p == Move(c, d, i);
        assert d != exclusion;
      }
    }
  }
}
