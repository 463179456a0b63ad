/**
 * Why the 0h n0 rules are right: every tile a rule sets has that colour in
 * every solution of the board, the exclusion rule's failure means there is
 * no solution at all, and the completed and fill rules have nothing left
 * to say once their own actions are committed.
 *
 * A solution of a snapshot `g` is a finished board (no GREY tile) that keeps
 * every tile already known in `g` and on which every numbered tile sees
 * exactly its number.
 */
module OhnoTheory {
  import opened Wrappers
  import opened Tiles
  import opened Coords
  import opened Grids
  import opened OhnoScan
  import opened OhnoSpec

  /** `s` is a solution of `g` for the numbers `reqs`. */
  ghost predicate Solves(g: Grid, reqs: Requirements, s: Grid)
    requires IsGrid(g)
  {
    IsGrid(s) && |s| == |g| && Refines(g, s) && Complete(s) &&
    forall c :: c in reqs ==> SeenCount(s, c) == reqs[c]
  }

  // ---------------------------------------------------------------------
  // Runs on rays

  lemma BlueRunAtLeast(r: seq<Tile>, j: nat)
    requires j <= |r|
    requires forall i :: 0 <= i < j ==> r[i] == BLUE
    ensures BlueRun(r) >= j
  {
  }

  /** Rays of a refinement have the same length and keep every known tile. */
  lemma RefinedRay(g: Grid, s: Grid, c: Coord, d: Direction)
    requires IsGrid(g) && IsGrid(s) && |s| == |g| && Refines(g, s)
    ensures |Ray(s, c, d)| == |Ray(g, c, d)|
    ensures forall i :: 0 <= i < |Ray(g, c, d)| && Ray(g, c, d)[i] != GREY ==> Ray(s, c, d)[i] == Ray(g, c, d)[i]
  {
  }

  /** Filling in unknown tiles never hides a seen tile. */
  lemma SeenGrows(g: Grid, s: Grid, c: Coord, d: Direction)
    requires IsGrid(g) && IsGrid(s) && |s| == |g| && Refines(g, s)
    ensures Seen(s, c, d) >= Seen(g, c, d)
  {
    RefinedRay(g, s, c, d);
    BlueRunAtLeast(Ray(s, c, d), Seen(g, c, d));
  }

  /** Filling in unknown tiles never moves the first RED further away. */
  lemma UntilRedShrinks(g: Grid, s: Grid, c: Coord, d: Direction)
    requires IsGrid(g) && IsGrid(s) && |s| == |g| && Refines(g, s)
    ensures UntilRed(Ray(s, c, d)) <= UntilRed(Ray(g, c, d))
  {
    RefinedRay(g, s, c, d);
  }

  /** If one direction gains k seen tiles, so does the total. */
  lemma SeenCountGrowsBy(g: Grid, s: Grid, c: Coord, d: Direction, k: int)
    requires IsGrid(g) && IsGrid(s) && |s| == |g| && Refines(g, s)
    requires Seen(s, c, d) >= Seen(g, c, d) + k
    ensures SeenCount(s, c) >= SeenCount(g, c) + k
  {
    SeenCountSum(g, c);
    SeenCountSum(s, c);
    SeenGrows(g, s, c, NORTH);
    SeenGrows(g, s, c, EAST);
    SeenGrows(g, s, c, SOUTH);
    SeenGrows(g, s, c, WEST);
  }

  /**
   * If an open ending of `g` is BLUE in a refinement, the tile sees the
   * ending and the BLUE run behind it too: its potential.
   */
  lemma EndingTurnsBlue(g: Grid, s: Grid, c: Coord, d: Direction)
    requires IsGrid(g) && IsGrid(s) && |s| == |g| && Refines(g, s)
    requires OpenEnding(g, c, d).Some? && At(s, OpenEnding(g, c, d).value) == BLUE
    ensures Seen(s, c, d) >= Seen(g, c, d) + Potential(g, c, d, Seen(g, c, d) + 1)
  {
    var r, t := Ray(g, c, d), Ray(s, c, d);
    var k := Seen(g, c, d);
    var m := BlueRun(r[k + 1..]);
    RefinedRay(g, s, c, d);
    assert t[k] == At(s, Move(c, d, k + 1));
    forall i | 0 <= i < k + 1 + m
      ensures t[i] == BLUE
    {
      if k < i {
        assert r[k + 1..][i - k - 1] == r[i];
      }
    }
    BlueRunAtLeast(t, k + 1 + m);
  }

  // ---------------------------------------------------------------------
  // Soundness

  /** The completed rule only sets tiles that are RED in every solution. */
  lemma CompletedSound(g: Grid, reqs: Requirements, s: Grid, e: Coord)
    requires IsGrid(g) && Solves(g, reqs, s) && e in CompletedTargets(g, reqs)
    ensures InBounds(|s|, e) && At(s, e) == RED
  {
    CompletedTargetsSpec(g, reqs, e);
    var c :| c in reqs && SeenCount(g, c) == reqs[c] && e in OpenEndings(g, c);
    OpenEndingsSpec(g, c, e);
    var d :| OpenEnding(g, c, d) == Some(e);
    if At(s, e) == BLUE {
      EndingTurnsBlue(g, s, c, d);
      SeenCountGrowsBy(g, s, c, d, 1);
    }
  }

  /** The overflow rule only sets tiles that are RED in every solution. */
  lemma OverflowSound(g: Grid, reqs: Requirements, s: Grid, e: Coord)
    requires IsGrid(g) && Solves(g, reqs, s) && e in OverflowTargets(g, reqs)
    ensures InBounds(|s|, e) && At(s, e) == RED
  {
    OverflowTargetsSpec(g, reqs, e);
    var c, d :| c in reqs && OpenEnding(g, c, d) == Some(e) && Unmet(g, reqs, c) &&
      SeenCount(g, c) + Potential(g, c, d, Seen(g, c, d) + 1) > reqs[c];
    if At(s, e) == BLUE {
      EndingTurnsBlue(g, s, c, d);
      SeenCountGrowsBy(g, s, c, d, Potential(g, c, d, Seen(g, c, d) + 1));
    }
  }

  /**
   * Over distinct directions, a refinement sees no more outside direction `d`
   * than `g` could potentially show outside `d`.
   */
  lemma {:induction false} SeenOutside(g: Grid, s: Grid, c: Coord, ds: seq<Direction>, d: Direction)
    requires IsGrid(g) && IsGrid(s) && |s| == |g| && Refines(g, s)
    requires forall i, j :: 0 <= i < j < |ds| ==> ds[i] != ds[j]
    ensures SeenOver(s, c, ds) <= PotentialCount(g, c, ds, Some(d)) + (if d in ds then Seen(s, c, d) else 0)
  {
    if ds != [] {
      var last := ds[|ds| - 1];
      var prefix := ds[..|ds| - 1];
      SeenOutside(g, s, c, prefix, d);
      if last == d {
        assert d !in prefix;
      } else {
        BlueRunWithinUntilRed(Ray(s, c, last));
        UntilRedShrinks(g, s, c, last);
        assert d in ds <==> d in prefix;
      }
    }
  }

  /**
   * What the exclusion rule sets is BLUE in every solution: the tile must
   * see at least `Lack` tiles in direction `d`, so those tiles exist and are
   * BLUE.
   */
  lemma ExclusionSound(g: Grid, reqs: Requirements, s: Grid, c: Coord, d: Direction, i: int)
    requires IsGrid(g) && Solves(g, reqs, s) && c in reqs && 1 <= i <= Lack(g, reqs, c, d)
    ensures i <= Seen(s, c, d) <= RayLength(|g|, c, d)
    ensures InBounds(|g|, Move(c, d, i)) && At(s, Move(c, d, i)) == BLUE
  {
    SeenOutside(g, s, c, Directions, d);
    DirectionsComplete(d);
    PotentialSeenExcludedSize(g, c, d);
    RayStep(s, c, d, i);
  }

  /** An exclusion target that is RED already means the board has no solution. */
  lemma ExclusionOnRed(g: Grid, reqs: Requirements, s: Grid, e: Coord)
    requires IsGrid(g) && e in ExclusionTargets(g, reqs) && At(g, e) == RED
    ensures !Solves(g, reqs, s)
  {
    ExclusionTargetsSpec(g, reqs, e);
    var c, d, i :| c in reqs && Unmet(g, reqs, c) && 1 <= i <= Lack(g, reqs, c, d) &&
      e == Move(c, d, i) && InBounds(|g|, e) && At(g, e) != BLUE;
    if Solves(g, reqs, s) {
      ExclusionSound(g, reqs, s, c, d, i);
    }
  }

  /** When the exclusion rule's read runs off the board, the board has no solution. */
  lemma ExclusionFailureUnsolvable(g: Grid, reqs: Requirements, s: Grid)
    requires IsGrid(g) && ExclusionFails(g, reqs)
    ensures !Solves(g, reqs, s)
  {
    var c, d :| c in reqs && Overruns(g, reqs, c, d);
    if Solves(g, reqs, s) {
      ExclusionSound(g, reqs, s, c, d, Lack(g, reqs, c, d));
    }
  }

  /** Every exclusion target is BLUE in every solution. */
  lemma ExclusionTargetSound(g: Grid, reqs: Requirements, s: Grid, e: Coord)
    requires IsGrid(g) && Solves(g, reqs, s) && e in ExclusionTargets(g, reqs)
    ensures InBounds(|s|, e) && At(s, e) == BLUE
  {
    ExclusionTargetsSpec(g, reqs, e);
    var c, d, i :| c in reqs && Unmet(g, reqs, c) && 1 <= i <= Lack(g, reqs, c, d) &&
      e == Move(c, d, i) && InBounds(|g|, e) && At(g, e) != BLUE;
    ExclusionSound(g, reqs, s, c, d, i);
  }

  /** Committing actions that agree with a solution keeps it a solution. */
  lemma AgreeingActionsKeepSolution(g: Grid, reqs: Requirements, s: Grid, actions: map<Coord, Tile>)
    requires IsGrid(g) && Solves(g, reqs, s)
    requires forall p :: p in actions ==> InBounds(|g|, p) && At(s, p) == actions[p]
    ensures Solves(ApplyActions(g, actions), reqs, s)
  {
  }

  /**
   * The exclusion, overflow and completed rules keep every solution: what
   * they set agrees with it, and the exclusion rule does not fail on a
   * solvable board.
   */
  lemma DeductionsKeepSolutions(g: Grid, reqs: Requirements, s: Grid)
    requires IsGrid(g) && Solves(g, reqs, s)
    ensures !ExclusionFails(g, reqs)
    ensures Solves(ApplyActions(g, Uniform(ExclusionTargets(g, reqs), BLUE)), reqs, s)
    ensures Solves(ApplyActions(g, Uniform(OverflowTargets(g, reqs), RED)), reqs, s)
    ensures Solves(ApplyActions(g, Uniform(CompletedTargets(g, reqs), RED)), reqs, s)
  {
    if ExclusionFails(g, reqs) {
      ExclusionFailureUnsolvable(g, reqs, s);
    }
    forall e | e in ExclusionTargets(g, reqs) {
      ExclusionTargetSound(g, reqs, s, e);
    }
    AgreeingActionsKeepSolution(g, reqs, s, Uniform(ExclusionTargets(g, reqs), BLUE));
    forall e | e in OverflowTargets(g, reqs) {
      OverflowSound(g, reqs, s, e);
    }
    AgreeingActionsKeepSolution(g, reqs, s, Uniform(OverflowTargets(g, reqs), RED));
    forall e | e in CompletedTargets(g, reqs) {
      CompletedSound(g, reqs, s, e);
    }
    AgreeingActionsKeepSolution(g, reqs, s, Uniform(CompletedTargets(g, reqs), RED));
  }

  // ---------------------------------------------------------------------
  // Committing RED over GREY

  /** The actions only turn GREY tiles RED. */
  ghost predicate RedOverGrey(g: Grid, actions: map<Coord, Tile>)
    requires IsGrid(g)
  {
    forall p :: p in actions ==> InBounds(|g|, p) && At(g, p) == GREY && actions[p] == RED
  }

  /** Turning GREY tiles RED keeps every known tile and changes no seen count. */
  lemma RedOverGreyKeepsSeen(g: Grid, actions: map<Coord, Tile>)
    requires IsGrid(g) && RedOverGrey(g, actions)
    ensures Refines(g, ApplyActions(g, actions))
    ensures forall c, d :: Seen(ApplyActions(g, actions), c, d) == Seen(g, c, d)
    ensures forall c :: SeenCount(ApplyActions(g, actions), c) == SeenCount(g, c)
  {
    var g' := ApplyActions(g, actions);
    forall c, d
      ensures Seen(g', c, d) == Seen(g, c, d)
    {
      var r, t := Ray(g, c, d), Ray(g', c, d);
      assert forall i :: 0 <= i < |r| ==> (t[i] == BLUE <==> r[i] == BLUE);
      BlueRunUnique(t, BlueRun(r));
    }
    forall c
      ensures SeenCount(g', c) == SeenCount(g, c)
    {
      SeenCountSum(g, c);
      SeenCountSum(g', c);
    }
  }

  /** An open ending after turning GREY tiles RED was already an open ending, and was not turned RED. */
  lemma EndingStaysOpen(g: Grid, actions: map<Coord, Tile>, c: Coord, d: Direction)
    requires IsGrid(g) && RedOverGrey(g, actions) && OpenEnding(ApplyActions(g, actions), c, d).Some?
    ensures OpenEnding(g, c, d) == OpenEnding(ApplyActions(g, actions), c, d)
    ensures OpenEnding(g, c, d).value !in actions
  {
    var g' := ApplyActions(g, actions);
    RedOverGreyKeepsSeen(g, actions);
    var k := Seen(g, c, d);
    var e := Move(c, d, k + 1);
    assert Ray(g', c, d)[k] == At(g', e);
    assert Ray(g, c, d)[k] == At(g, e);
  }

  /** Once its RED tiles are committed, the completed rule proposes nothing. */
  lemma CompletedIdempotent(g: Grid, reqs: Requirements)
    requires IsGrid(g)
    ensures CompletedTargets(ApplyActions(g, Uniform(CompletedTargets(g, reqs), RED)), reqs) == {}
  {
    var actions := Uniform(CompletedTargets(g, reqs), RED);
    var g' := ApplyActions(g, actions);
    forall e | e in actions {
      CompletedTargetsSpec(g, reqs, e);
    }
    RedOverGreyKeepsSeen(g, actions);
    forall e | e in CompletedTargets(g', reqs)
      ensures false
    {
      CompletedTargetsSpec(g', reqs, e);
      var c :| c in reqs && SeenCount(g', c) == reqs[c] && e in OpenEndings(g', c);
      OpenEndingsSpec(g', c, e);
      var d :| OpenEnding(g', c, d) == Some(e);
      EndingStaysOpen(g, actions, c, d);
      OpenEndingsSpec(g, c, e);
      CompletedTargetsSpec(g, reqs, e);
    }
  }

  /** Once its RED tiles are committed, no tile is unknown and the fill rule proposes nothing. */
  lemma FillIdempotent(g: Grid, reqs: Requirements)
    requires IsGrid(g)
    ensures FillTargets(ApplyActions(g, Uniform(FillTargets(g, reqs), RED)), reqs) == {}
  {
    var g' := ApplyActions(g, Uniform(FillTargets(g, reqs), RED));
    if FillBlocked(g, reqs) {
      ApplyNothing(g);
    } else {
      assert Complete(g');
      forall p | p in FillTargets(g', reqs)
        ensures false
      {
        FillTargetsSpec(g', reqs, p);
      }
    }
  }

  /**
   * When every number is met exactly, committing the fill rule's actions
   * solves the board.
   */
  lemma FillSolves(g: Grid, reqs: Requirements)
    requires IsGrid(g)
    requires forall c :: c in reqs ==> SeenCount(g, c) == reqs[c]
    ensures Solves(g, reqs, ApplyActions(g, Uniform(FillTargets(g, reqs), RED)))
  {
    var targets := FillTargets(g, reqs);
    var g' := ApplyActions(g, Uniform(targets, RED));
    assert !FillBlocked(g, reqs);
    RedOverGreyKeepsSeen(g, Uniform(targets, RED));
    assert Complete(g');
  }
}
