/**
 * What each 0h n0 rule proposes, as functions of a board snapshot and the
 * requirement map (the number on each numbered tile).
 *
 * Every rule visits the numbered tiles and collects target tiles; the
 * result map sends every target to one colour (RED for the completed,
 * overflow and fill rules, BLUE for the exclusion rule).
 */
module OhnoSpec {
  import opened Wrappers
  import opened Tiles
  import opened Coords
  import opened Grids
  import opened OhnoScan

  type Requirements = map<Coord, int>

  /** The numbered tile `c` does not yet see as many BLUE tiles as its number asks. */
  predicate Unmet(g: Grid, reqs: Requirements, c: Coord)
    requires IsGrid(g)
  {
    c in reqs && SeenCount(g, c) < reqs[c]
  }

  // ---------------------------------------------------------------------
  // CompletedRule

  /** A numbered tile that sees exactly its number closes all its open endings. */
  function CompletedAt(g: Grid, reqs: Requirements, c: Coord): set<Coord>
    requires IsGrid(g)
  {
    if c in reqs && SeenCount(g, c) == reqs[c] then OpenEndings(g, c) else {}
  }

  /** The completed rule's targets from the numbered tiles in `tiles`. */
  function CompletedOver(g: Grid, reqs: Requirements, tiles: set<Coord>): set<Coord>
    requires IsGrid(g)
  {
    set c, e | c in tiles && e in CompletedAt(g, reqs, c) :: e
  }

  function CompletedTargets(g: Grid, reqs: Requirements): set<Coord>
    requires IsGrid(g)
  {
    CompletedOver(g, reqs, reqs.Keys)
  }

  // ---------------------------------------------------------------------
  // OverflowRule

  /**
   * The tiles `c` would see in direction `d` if the tile at distance
   * `distance` turned BLUE: that tile and the BLUE run right behind it.
   */
  function Potential(g: Grid, c: Coord, d: Direction, distance: nat): nat
    requires IsGrid(g)
  {
    var r := Ray(g, c, d);
    1 + if distance <= |r| then BlueRun(r[distance..]) else 0
  }

  /**
   * The open ending `e` of an unmet numbered tile `c` would overshoot the
   * number if it turned BLUE; the direction and distance of `e` are
   * recovered from `e` itself.
   */
  predicate Overflows(g: Grid, reqs: Requirements, c: Coord, e: Coord)
    requires IsGrid(g)
  {
    Unmet(g, reqs, c) && e in OpenEndings(g, c) && GetDirection(c, e).Some? &&
    SeenCount(g, c) + Potential(g, c, GetDirection(c, e).value, GetDistance(c, e)) > reqs[c]
  }

  function OverflowAt(g: Grid, reqs: Requirements, c: Coord): set<Coord>
    requires IsGrid(g)
  {
    set e | e in OpenEndings(g, c) && Overflows(g, reqs, c, e)
  }

  function OverflowOver(g: Grid, reqs: Requirements, tiles: set<Coord>): set<Coord>
    requires IsGrid(g)
  {
    set c, e | c in tiles && e in OverflowAt(g, reqs, c) :: e
  }

  function OverflowTargets(g: Grid, reqs: Requirements): set<Coord>
    requires IsGrid(g)
  {
    OverflowOver(g, reqs, reqs.Keys)
  }

  /** The open endings among `visited` that overflow: what the loop over the open endings has found. */
  function OverflowAmong(g: Grid, reqs: Requirements, c: Coord, visited: set<Coord>): set<Coord>
    requires IsGrid(g)
  {
    set e | e in visited && Overflows(g, reqs, c, e)
  }

  /** One more open ending of the overflow loop. */
  lemma OverflowAmongNext(g: Grid, reqs: Requirements, c: Coord, visited: set<Coord>, e: Coord,
                          actions: map<Coord, Tile>, current: map<Coord, Tile>)
    requires IsGrid(g)
    requires current == actions + Uniform(OverflowAmong(g, reqs, c, visited), RED)
    ensures (if Overflows(g, reqs, c, e) then current[e := RED] else current) ==
      actions + Uniform(OverflowAmong(g, reqs, c, visited + {e}), RED)
  {
    if Overflows(g, reqs, c, e) {
      assert OverflowAmong(g, reqs, c, visited + {e}) == OverflowAmong(g, reqs, c, visited) + {e};
      UniformAdd(actions, OverflowAmong(g, reqs, c, visited), RED, e);
    } else {
      assert OverflowAmong(g, reqs, c, visited + {e}) == OverflowAmong(g, reqs, c, visited);
    }
  }

  /** Over all open endings the loop has found the whole of `OverflowAt`; a met number has none. */
  lemma OverflowAmongAll(g: Grid, reqs: Requirements, c: Coord)
    requires IsGrid(g)
    ensures OverflowAmong(g, reqs, c, OpenEndings(g, c)) == OverflowAt(g, reqs, c)
    ensures !Unmet(g, reqs, c) ==> OverflowAt(g, reqs, c) == {}
  {
  }

  /** For the open ending in direction `d`, the direction and distance the rule recovers are `d` and one past the run. */
  lemma OpenEndingDirection(g: Grid, c: Coord, d: Direction)
    requires IsGrid(g) && OpenEnding(g, c, d).Some?
    ensures GetDirection(c, OpenEnding(g, c, d).value) == Some(d)
    ensures GetDistance(c, OpenEnding(g, c, d).value) == Seen(g, c, d) + 1
  {
    GetDirectionOfMove(c, d, Seen(g, c, d) + 1);
    GetDistanceSpec(c, c, d, Seen(g, c, d) + 1);
  }

  /** An open ending lies in a direction of `c`, within the ray of that direction. */
  lemma OpenEndingPlace(g: Grid, c: Coord, e: Coord) returns (d: Direction)
    requires IsGrid(g) && e in OpenEndings(g, c)
    ensures GetDirection(c, e) == Some(d)
    ensures 1 <= GetDistance(c, e) <= |Ray(g, c, d)|
  {
    OpenEndingsSpec(g, c, e);
    d :| OpenEnding(g, c, d) == Some(e);
    OpenEndingDirection(g, c, d);
  }

  // ---------------------------------------------------------------------
  // ExclusionRule

  /**
   * How many tiles `c` still needs beyond everything the other three
   * directions could ever show it.
   */
  function Lack(g: Grid, reqs: Requirements, c: Coord, d: Direction): int
    requires IsGrid(g) && c in reqs
  {
    reqs[c] - |PotentialSeenExcluded(g, c, d)|
  }

  /** The exclusion rule would read past the board's edge in direction `d`. */
  predicate Overruns(g: Grid, reqs: Requirements, c: Coord, d: Direction)
    requires IsGrid(g)
  {
    Unmet(g, reqs, c) && Lack(g, reqs, c, d) > RayLength(|g|, c, d)
  }

  /** The strict read of the exclusion rule fails for some numbered tile and direction. */
  predicate ExclusionFails(g: Grid, reqs: Requirements)
    requires IsGrid(g)
  {
    exists c, d :: c in reqs && Overruns(g, reqs, c, d)
  }

  /** The tiles at distance 1 .. `lack` in direction `d` (on the board) that are not already BLUE. */
  function ExclusionSteps(g: Grid, c: Coord, d: Direction, lack: int): set<Coord>
    requires IsGrid(g)
  {
    set i | 1 <= i <= RayLength(|g|, c, d) && i <= lack && Ray(g, c, d)[i - 1] != BLUE :: Move(c, d, i)
  }

  /** Raising the distance by one adds that tile when it is not BLUE. */
  lemma ExclusionStepsStep(g: Grid, c: Coord, d: Direction, i: int)
    requires IsGrid(g) && 1 <= i <= RayLength(|g|, c, d)
    ensures ExclusionSteps(g, c, d, i) ==
      ExclusionSteps(g, c, d, i - 1) + if Ray(g, c, d)[i - 1] != BLUE then {Move(c, d, i)} else {}
  {
  }

  /** Distances beyond the ray add nothing. */
  lemma ExclusionStepsBeyond(g: Grid, c: Coord, d: Direction, i: int, lack: int)
    requires IsGrid(g) && (i == lack || lack <= i <= 0)
    ensures ExclusionSteps(g, c, d, i) == ExclusionSteps(g, c, d, lack)
  {
  }

  /** The exclusion targets of `c` over the directions `ds`. */
  function ExclusionIn(g: Grid, reqs: Requirements, c: Coord, ds: seq<Direction>): set<Coord>
    requires IsGrid(g)
  {
    if Unmet(g, reqs, c) then set d, e | d in ds && e in ExclusionSteps(g, c, d, Lack(g, reqs, c, d)) :: e else {}
  }

  function ExclusionAt(g: Grid, reqs: Requirements, c: Coord): set<Coord>
    requires IsGrid(g)
  {
    ExclusionIn(g, reqs, c, Directions)
  }

  function ExclusionOver(g: Grid, reqs: Requirements, tiles: set<Coord>): set<Coord>
    requires IsGrid(g)
  {
    set c, e | c in tiles && e in ExclusionAt(g, reqs, c) :: e
  }

  function ExclusionTargets(g: Grid, reqs: Requirements): set<Coord>
    requires IsGrid(g)
  {
    ExclusionOver(g, reqs, reqs.Keys)
  }

  // ---------------------------------------------------------------------
  // FillRule

  /** Some numbered tile still needs more BLUE tiles, which blocks the fill rule. */
  predicate FillBlocked(g: Grid, reqs: Requirements)
    requires IsGrid(g)
  {
    exists c :: c in reqs && Unmet(g, reqs, c)
  }

  function FillTargets(g: Grid, reqs: Requirements): set<Coord>
    requires IsGrid(g)
  {
    if FillBlocked(g, reqs) then {} else set p | p in AllCoords(|g|) && At(g, p) == GREY
  }

  /** The GREY tiles of the first `y` rows and of row `y` left of `x`: what the row-by-row fill loop has seen. */
  ghost function GreyBefore(g: Grid, y: int, x: int): set<Coord>
    requires IsGrid(g)
  {
    set p | p in AllCoords(|g|) && (p.y < y || (p.y == y && p.x < x)) && At(g, p) == GREY
  }

  /** One more cell of the fill loop. */
  lemma GreyBeforeNext(g: Grid, y: int, x: int, actions: map<Coord, Tile>)
    requires IsGrid(g) && 0 <= x < |g| && 0 <= y < |g|
    requires actions == Uniform(GreyBefore(g, y, x), RED)
    ensures (if g[x][y] == GREY then actions[Coord(x, y) := RED] else actions) == Uniform(GreyBefore(g, y, x + 1), RED)
  {
    if g[x][y] == GREY {
      assert GreyBefore(g, y, x + 1) == GreyBefore(g, y, x) + {Coord(x, y)};
      UniformAdd(map[], GreyBefore(g, y, x), RED, Coord(x, y));
      assert map[] + Uniform(GreyBefore(g, y, x), RED) == actions;
      assert map[] + Uniform(GreyBefore(g, y, x + 1), RED) == Uniform(GreyBefore(g, y, x + 1), RED);
    } else {
      assert GreyBefore(g, y, x + 1) == GreyBefore(g, y, x);
    }
  }

  /** The end of one row is the start of the next. */
  lemma GreyBeforeRow(g: Grid, y: int)
    requires IsGrid(g)
    ensures GreyBefore(g, y, |g|) == GreyBefore(g, y + 1, 0)
  {
  }

  /** After the last row the fill loop has seen every GREY tile. */
  lemma GreyBeforeAll(g: Grid, reqs: Requirements)
    requires IsGrid(g) && !FillBlocked(g, reqs)
    ensures GreyBefore(g, |g|, 0) == FillTargets(g, reqs)
  {
  }

  // ---------------------------------------------------------------------
  // Shape of the results

  /** Every completed-rule target is a GREY open ending of a numbered tile that sees exactly its number. */
  lemma CompletedTargetsSpec(g: Grid, reqs: Requirements, e: Coord)
    requires IsGrid(g)
    ensures e in CompletedTargets(g, reqs) <==>
      exists c :: c in reqs && SeenCount(g, c) == reqs[c] && e in OpenEndings(g, c)
    ensures e in CompletedTargets(g, reqs) ==> InBounds(|g|, e) && At(g, e) == GREY
  {
    if e in CompletedTargets(g, reqs) {
      var c :| c in reqs && e in CompletedAt(g, reqs, c);
      OpenEndingsSpec(g, c, e);
    }
    if exists c :: c in reqs && SeenCount(g, c) == reqs[c] && e in OpenEndings(g, c) {
      var c :| c in reqs && SeenCount(g, c) == reqs[c] && e in OpenEndings(g, c);
      assert e in CompletedAt(g, reqs, c);
    }
  }

  /** The open ending in direction `d` overflows exactly when one more BLUE tile there, with the run behind it, overshoots. */
  lemma OverflowsByDirection(g: Grid, reqs: Requirements, c: Coord, d: Direction)
    requires IsGrid(g) && OpenEnding(g, c, d).Some?
    ensures Overflows(g, reqs, c, OpenEnding(g, c, d).value) <==>
      Unmet(g, reqs, c) && SeenCount(g, c) + Potential(g, c, d, Seen(g, c, d) + 1) > reqs[c]
  {
    OpenEndingDirection(g, c, d);
    OpenEndingsSpec(g, c, OpenEnding(g, c, d).value);
  }

  /**
   * Every overflow target is a GREY open ending, in some direction d, of an
   * unmet numbered tile whose count plus the potential of that ending
   * exceeds its number.
   */
  lemma OverflowTargetsSpec(g: Grid, reqs: Requirements, e: Coord)
    requires IsGrid(g)
    ensures e in OverflowTargets(g, reqs) <==>
      exists c, d :: c in reqs && OpenEnding(g, c, d) == Some(e) && Unmet(g, reqs, c) &&
        SeenCount(g, c) + Potential(g, c, d, Seen(g, c, d) + 1) > reqs[c]
    ensures e in OverflowTargets(g, reqs) ==> InBounds(|g|, e) && At(g, e) == GREY
  {
    if e in OverflowTargets(g, reqs) {
      var c :| c in reqs && e in OverflowAt(g, reqs, c);
      OpenEndingsSpec(g, c, e);
      var d :| OpenEnding(g, c, d) == Some(e);
      OverflowsByDirection(g, reqs, c, d);
    }
    if exists c, d :: c in reqs && OpenEnding(g, c, d) == Some(e) && Unmet(g, reqs, c) &&
        SeenCount(g, c) + Potential(g, c, d, Seen(g, c, d) + 1) > reqs[c] {
      var c, d :| c in reqs && OpenEnding(g, c, d) == Some(e) && Unmet(g, reqs, c) &&
        SeenCount(g, c) + Potential(g, c, d, Seen(g, c, d) + 1) > reqs[c];
      OverflowsByDirection(g, reqs, c, d);
      OpenEndingsSpec(g, c, e);
      assert e in OverflowAt(g, reqs, c);
    }
  }

  /** `e` lies at distance 1 .. Lack from an unmet numbered tile, on the board, and is not BLUE. */
  ghost predicate ExclusionCandidate(g: Grid, reqs: Requirements, e: Coord)
    requires IsGrid(g)
  {
    exists c, d, i :: c in reqs && Unmet(g, reqs, c) && 1 <= i <= Lack(g, reqs, c, d) &&
      e == Move(c, d, i) && InBounds(|g|, e) && At(g, e) != BLUE
  }

  /**
   * Every exclusion target is a candidate; when no read runs off the board,
   * every candidate is a target.
   */
  lemma ExclusionTargetsSpec(g: Grid, reqs: Requirements, e: Coord)
    requires IsGrid(g)
    ensures e in ExclusionTargets(g, reqs) ==> ExclusionCandidate(g, reqs, e)
    ensures !ExclusionFails(g, reqs) ==> (e in ExclusionTargets(g, reqs) <==> ExclusionCandidate(g, reqs, e))
    ensures e in ExclusionTargets(g, reqs) ==> InBounds(|g|, e) && At(g, e) != BLUE
  {
    if e in ExclusionTargets(g, reqs) {
      var c :| c in reqs && e in ExclusionAt(g, reqs, c);
      var d :| d in Directions && e in ExclusionSteps(g, c, d, Lack(g, reqs, c, d));
      var i :| 1 <= i <= RayLength(|g|, c, d) && i <= Lack(g, reqs, c, d) &&
        Ray(g, c, d)[i - 1] != BLUE && e == Move(c, d, i);
      RayStep(g, c, d, i);
    }
    if !ExclusionFails(g, reqs) && ExclusionCandidate(g, reqs, e) {
      var c, d, i :| c in reqs && Unmet(g, reqs, c) && 1 <= i <= Lack(g, reqs, c, d) &&
        e == Move(c, d, i) && InBounds(|g|, e) && At(g, e) != BLUE;
      assert !Overruns(g, reqs, c, d);
      RayStep(g, c, d, i);
      assert e in ExclusionSteps(g, c, d, Lack(g, reqs, c, d));
      DirectionsComplete(d);
      assert e in ExclusionAt(g, reqs, c);
    }
  }

  /** Unless some number is unmet, the fill rule targets exactly the GREY tiles. */
  lemma FillTargetsSpec(g: Grid, reqs: Requirements, p: Coord)
    requires IsGrid(g)
    ensures FillBlocked(g, reqs) ==> FillTargets(g, reqs) == {}
    ensures !FillBlocked(g, reqs) ==> (p in FillTargets(g, reqs) <==> InBounds(|g|, p) && At(g, p) == GREY)
  {
  }

  /** The completed, overflow and fill rules only turn GREY tiles RED. */
  lemma RedRulesProgress(g: Grid, reqs: Requirements)
    requires IsGrid(g)
    ensures Progressing(g, Uniform(CompletedTargets(g, reqs), RED))
    ensures Progressing(g, Uniform(OverflowTargets(g, reqs), RED))
    ensures Progressing(g, Uniform(FillTargets(g, reqs), RED))
  {
    forall e | e in CompletedTargets(g, reqs) {
      CompletedTargetsSpec(g, reqs, e);
    }
    forall e | e in OverflowTargets(g, reqs) {
      OverflowTargetsSpec(g, reqs, e);
    }
  }

  /** The exclusion rule only turns GREY or RED tiles BLUE. */
  lemma ExclusionProgresses(g: Grid, reqs: Requirements)
    requires IsGrid(g)
    ensures Progressing(g, Uniform(ExclusionTargets(g, reqs), BLUE))
  {
    forall e | e in ExclusionTargets(g, reqs) {
      ExclusionTargetsSpec(g, reqs, e);
    }
  }

  // ---------------------------------------------------------------------
  // Visiting the numbered tiles one at a time

  lemma CompletedOverStep(g: Grid, reqs: Requirements, tiles: set<Coord>, c: Coord)
    requires IsGrid(g)
    ensures CompletedOver(g, reqs, tiles + {c}) == CompletedOver(g, reqs, tiles) + CompletedAt(g, reqs, c)
  {
  }

  lemma OverflowOverStep(g: Grid, reqs: Requirements, tiles: set<Coord>, c: Coord)
    requires IsGrid(g)
    ensures OverflowOver(g, reqs, tiles + {c}) == OverflowOver(g, reqs, tiles) + OverflowAt(g, reqs, c)
  {
  }

  lemma ExclusionOverStep(g: Grid, reqs: Requirements, tiles: set<Coord>, c: Coord)
    requires IsGrid(g)
    ensures ExclusionOver(g, reqs, tiles + {c}) == ExclusionOver(g, reqs, tiles) + ExclusionAt(g, reqs, c)
  {
  }

  /** One more numbered tile of the exclusion loop: the accumulated actions. */
  lemma ExclusionOverNext(g: Grid, reqs: Requirements, done: set<Coord>, c: Coord,
                          actions: map<Coord, Tile>, next: map<Coord, Tile>)
    requires IsGrid(g)
    requires actions == Uniform(ExclusionOver(g, reqs, done), BLUE)
    requires next == actions + Uniform(ExclusionAt(g, reqs, c), BLUE)
    ensures next == Uniform(ExclusionOver(g, reqs, done + {c}), BLUE)
  {
    ExclusionOverStep(g, reqs, done, c);
    UniformUnion(ExclusionOver(g, reqs, done), ExclusionAt(g, reqs, c), BLUE);
  }

  /** No numbered tile of `tiles` overruns the board in any direction. */
  predicate NoneOverrun(g: Grid, reqs: Requirements, tiles: set<Coord>)
    requires IsGrid(g)
  {
    forall c, d :: c in tiles ==> !Overruns(g, reqs, c, d)
  }

  /** One more numbered tile of the exclusion loop: the overrun test. */
  lemma NoneOverrunNext(g: Grid, reqs: Requirements, done: set<Coord>, c: Coord)
    requires IsGrid(g) && NoneOverrun(g, reqs, done)
    requires !exists d :: Overruns(g, reqs, c, d)
    ensures NoneOverrun(g, reqs, done + {c})
  {
  }

  /** The strict read fails exactly when some numbered tile overruns. */
  lemma ExclusionFailsSpec(g: Grid, reqs: Requirements, c: Coord)
    requires IsGrid(g)
    ensures c in reqs && (exists d :: Overruns(g, reqs, c, d)) ==> ExclusionFails(g, reqs)
    ensures NoneOverrun(g, reqs, reqs.Keys) ==> !ExclusionFails(g, reqs)
  {
  }

  /** Taking one more of the four directions adds that direction's steps. */
  lemma ExclusionInStep(g: Grid, reqs: Requirements, c: Coord, j: nat)
    requires IsGrid(g) && Unmet(g, reqs, c) && j < |Directions|
    ensures ExclusionIn(g, reqs, c, Directions[..j + 1]) ==
      ExclusionIn(g, reqs, c, Directions[..j]) + ExclusionSteps(g, c, Directions[j], Lack(g, reqs, c, Directions[j]))
  {
    var ds := Directions[..j + 1];
    var last := Directions[j];
    assert ds == Directions[..j] + [last];
    forall e | e in ExclusionIn(g, reqs, c, ds)
      ensures e in ExclusionIn(g, reqs, c, Directions[..j]) || e in ExclusionSteps(g, c, last, Lack(g, reqs, c, last))
    {
      var d :| d in ds && e in ExclusionSteps(g, c, d, Lack(g, reqs, c, d));
      if d != last {
        assert d in Directions[..j];
      }
    }
  }

  /** One more direction of the exclusion loop: the accumulated actions. */
  lemma ExclusionInNext(g: Grid, reqs: Requirements, c: Coord, j: nat,
                        actions: map<Coord, Tile>, current: map<Coord, Tile>, next: map<Coord, Tile>)
    requires IsGrid(g) && Unmet(g, reqs, c) && j < |Directions|
    requires current == actions + Uniform(ExclusionIn(g, reqs, c, Directions[..j]), BLUE)
    requires next == current + Uniform(ExclusionSteps(g, c, Directions[j], Lack(g, reqs, c, Directions[j])), BLUE)
    ensures next == actions + Uniform(ExclusionIn(g, reqs, c, Directions[..j + 1]), BLUE)
  {
    UniformMerge(actions, ExclusionIn(g, reqs, c, Directions[..j]),
      ExclusionSteps(g, c, Directions[j], Lack(g, reqs, c, Directions[j])), BLUE);
    ExclusionInStep(g, reqs, c, j);
  }

  /** Some direction of `ds` overruns the board. */
  predicate AnyOverruns(g: Grid, reqs: Requirements, c: Coord, ds: seq<Direction>)
    requires IsGrid(g)
  {
    ds != [] && (AnyOverruns(g, reqs, c, ds[..|ds| - 1]) || Overruns(g, reqs, c, ds[|ds| - 1]))
  }

  lemma {:induction false} AnyOverrunsSpec(g: Grid, reqs: Requirements, c: Coord, ds: seq<Direction>)
    requires IsGrid(g)
    ensures AnyOverruns(g, reqs, c, ds) <==> exists d :: d in ds && Overruns(g, reqs, c, d)
  {
    if ds != [] {
      var init := ds[..|ds| - 1];
      AnyOverrunsSpec(g, reqs, c, init);
      if exists d :: d in ds && Overruns(g, reqs, c, d) {
        var d :| d in ds && Overruns(g, reqs, c, d);
        if d != ds[|ds| - 1] {
          assert d in init;
        }
      }
      if AnyOverruns(g, reqs, c, init) {
        var d :| d in init && Overruns(g, reqs, c, d);
        assert d in ds;
      }
    }
  }

  /** One more direction of the exclusion loop: the overrun test. */
  lemma AnyOverrunsStep(g: Grid, reqs: Requirements, c: Coord, j: nat)
    requires IsGrid(g) && j < |Directions|
    ensures AnyOverruns(g, reqs, c, Directions[..j + 1]) <==>
      AnyOverruns(g, reqs, c, Directions[..j]) || Overruns(g, reqs, c, Directions[j])
  {
    assert Directions[..j + 1][..j] == Directions[..j];
  }

  /** Over all four directions the overrun test asks whether any direction overruns. */
  lemma AnyOverrunsAll(g: Grid, reqs: Requirements, c: Coord)
    requires IsGrid(g)
    ensures AnyOverruns(g, reqs, c, Directions[..|Directions|]) <==> exists d :: Overruns(g, reqs, c, d)
  {
    assert Directions[..|Directions|] == Directions;
    AnyOverrunsSpec(g, reqs, c, Directions);
    if exists d :: Overruns(g, reqs, c, d) {
      var d :| Overruns(g, reqs, c, d);
      DirectionsComplete(d);
    }
  }

  /** After the four directions the accumulated actions hold the whole exclusion, and nothing overran. */
  lemma ExclusionInAll(g: Grid, reqs: Requirements, c: Coord, actions: map<Coord, Tile>, current: map<Coord, Tile>)
    requires IsGrid(g)
    requires current == actions + Uniform(ExclusionIn(g, reqs, c, Directions[..|Directions|]), BLUE)
    requires !AnyOverruns(g, reqs, c, Directions[..|Directions|])
    ensures current == actions + Uniform(ExclusionAt(g, reqs, c), BLUE)
    ensures !exists d :: Overruns(g, reqs, c, d)
  {
    assert Directions[..|Directions|] == Directions;
    AnyOverrunsAll(g, reqs, c);
  }
}
