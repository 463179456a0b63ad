/**
 * The four 0h n0 rules (q42/ohno). Each reads the board and its numbers and
 * returns the map of proposed assignments; none of them changes the board.
 * Each is proved to return exactly the map its specification in `OhnoSpec`
 * describes.
 */
module OhnoRules {
  import opened Wrappers
  import opened Tiles
  import opened Coords
  import opened Grids
  import opened Boards
  import opened OhnoBoards
  import opened OhnoScan
  import opened OhnoSpec
  import opened OhnoHelpers

  /** The loop `for (coord : targets) actions.put(coord, t)` shared by the rules. */
  method PutAll(actions: map<Coord, Tile>, targets: set<Coord>, t: Tile) returns (result: map<Coord, Tile>)
    ensures result == actions + Uniform(targets, t)
  {
    result := actions;
    var rest := targets;
    ghost var put: set<Coord> := {};
    while rest != {}
      invariant rest + put == targets
      invariant result == actions + Uniform(put, t)
      decreases rest
    {
      var target :| target in rest;
      UniformAdd(actions, put, t, target);
      result := result[target := t];
      rest := rest - {target};
      put := put + {target};
    }
  }

  /** The body of `CompletedRule.apply` for the numbered tile `coord`. */
  method CompletedAtTile(state: BoardStateOhno, coord: Coord, actions: map<Coord, Tile>) returns (result: map<Coord, Tile>)
    requires state.board.Filled()
    requires coord in state.requirements
    ensures result == actions + Uniform(CompletedAt(state.board.Snapshot(), state.requirements, coord), RED)
  {
    ghost var g := state.board.Snapshot();
    var seen := GetAmountOfSeenTiles(state.board, coord);
    assert state.board.Snapshot() == g;
    if Some(seen) == state.GetTileRequirement(coord) {
      var openEndings := GetOpenEndings(state.board, coord);
      assert state.board.Snapshot() == g;
      result := PutAll(actions, openEndings, RED);
    } else {
      result := actions;
    }
  }

  /** `CompletedRule.apply`: close every open ending of a numbered tile that sees exactly its number. */
  method Completed(state: BoardStateOhno) returns (actions: map<Coord, Tile>)
    requires state.board.Filled()
    ensures actions == Uniform(CompletedTargets(state.board.Snapshot(), state.requirements), RED)
  {
    ghost var g := state.board.Snapshot();
    ghost var reqs := state.requirements;
    actions := map[];
    var todo := state.GetRequirementTiles();
    ghost var done: set<Coord> := {};
    while todo != {}
      invariant todo + done == reqs.Keys
      invariant actions == Uniform(CompletedOver(g, reqs, done), RED)
      decreases todo
    {
      var coord :| coord in todo;
      actions := CompletedAtTile(state, coord, actions);
      assert state.board.Snapshot() == g;
      CompletedOverStep(g, reqs, done, coord);
      UniformUnion(CompletedOver(g, reqs, done), CompletedAt(g, reqs, coord), RED);
      todo := todo - {coord};
      done := done + {coord};
    }
  }

  /**
   * The counting loop of `OverflowRule.apply`: one for the open ending at
   * `distance` plus the BLUE tiles right behind it.
   */
  method CountPotential(board: BoardState, c: Coord, d: Direction, distance: nat) returns (potential: nat)
    requires board.Filled() && 1 <= distance <= |Ray(board.Snapshot(), c, d)|
    ensures potential == Potential(board.Snapshot(), c, d, distance)
  {
    ghost var g := board.Snapshot();
    ghost var r := Ray(g, c, d);
    potential := 1;
    var i := distance + 1;
    while true
      invariant distance + 1 <= i <= |r| + 1
      invariant forall k :: distance <= k < i - 1 ==> r[k] == BLUE
      invariant potential == i - distance
      decreases |r| + 1 - i
    {
      var potentialCoord := Move(c, d, i);
      RayStep(g, c, d, i);
      if !board.IsCoordWithinBounds(potentialCoord) || board.GetTile(potentialCoord) != Success(Some(BLUE)) {
        break;
      }
      potential := potential + 1;
      i := i + 1;
    }
    var behind := r[distance..];
    assert forall k :: 0 <= k < i - 1 - distance ==> behind[k] == r[distance + k];
    BlueRunUnique(behind, i - 1 - distance);
  }

  /** The test of `OverflowRule.apply` for one open ending of the unmet numbered tile `coord`. */
  method Overflowing(state: BoardStateOhno, coord: Coord, seen: nat, openEnding: Coord) returns (overflows: bool)
    requires state.board.Filled()
    requires Unmet(state.board.Snapshot(), state.requirements, coord)
    requires seen == SeenCount(state.board.Snapshot(), coord)
    requires openEnding in OpenEndings(state.board.Snapshot(), coord)
    ensures overflows == Overflows(state.board.Snapshot(), state.requirements, coord, openEnding)
  {
    ghost var g := state.board.Snapshot();
    ghost var d := OpenEndingPlace(g, coord, openEnding);
    var direction := GetDirection(coord, openEnding).value;
    var potential := CountPotential(state.board, coord, direction, GetDistance(coord, openEnding));
    assert state.board.Snapshot() == g;
    var requirement := state.GetTileRequirement(coord).value;
    overflows := seen + potential > requirement;
  }

  /** The body of `OverflowRule.apply` for the numbered tile `coord`. */
  method OverflowAtTile(state: BoardStateOhno, coord: Coord, actions: map<Coord, Tile>) returns (result: map<Coord, Tile>)
    requires state.board.Filled()
    requires coord in state.requirements
    ensures result == actions + Uniform(OverflowAt(state.board.Snapshot(), state.requirements, coord), RED)
  {
    ghost var g := state.board.Snapshot();
    ghost var reqs := state.requirements;
    result := actions;
    var requirement := state.GetTileRequirement(coord).value;
    var seen := GetAmountOfSeenTiles(state.board, coord);
    assert state.board.Snapshot() == g;
    if seen < requirement {
      var openEndings := GetOpenEndings(state.board, coord);
      assert state.board.Snapshot() == g;
      var rest := openEndings;
      ghost var visited: set<Coord> := {};
      while rest != {}
        invariant rest + visited == openEndings
        invariant result == actions + Uniform(OverflowAmong(g, reqs, coord, visited), RED)
        invariant state.board.Snapshot() == g && state.requirements == reqs
        decreases rest
      {
        var openEnding :| openEnding in rest;
        var overflows := Overflowing(state, coord, seen, openEnding);
        assert state.board.Snapshot() == g;
        OverflowAmongNext(g, reqs, coord, visited, openEnding, actions, result);
        if overflows {
          result := result[openEnding := RED];
        }
        rest := rest - {openEnding};
        visited := visited + {openEnding};
      }
    }
    OverflowAmongAll(g, reqs, coord);
  }

  /**
   * `OverflowRule.apply`: an open ending of an unmet numbered tile turns RED
   * when one more BLUE tile there would overshoot the number.
   */
  method Overflow(state: BoardStateOhno) returns (actions: map<Coord, Tile>)
    requires state.board.Filled()
    ensures actions == Uniform(OverflowTargets(state.board.Snapshot(), state.requirements), RED)
  {
    ghost var g := state.board.Snapshot();
    ghost var reqs := state.requirements;
    actions := map[];
    var todo := state.GetRequirementTiles();
    ghost var done: set<Coord> := {};
    while todo != {}
      invariant todo + done == reqs.Keys
      invariant actions == Uniform(OverflowOver(g, reqs, done), RED)
      decreases todo
    {
      var coord :| coord in todo;
      actions := OverflowAtTile(state, coord, actions);
      assert state.board.Snapshot() == g;
      OverflowOverStep(g, reqs, done, coord);
      UniformUnion(OverflowOver(g, reqs, done), OverflowAt(g, reqs, coord), RED);
      todo := todo - {coord};
      done := done + {coord};
    }
  }

  /**
   * One turn of the innermost loop of `ExclusionRule.apply`: the tile at
   * distance `i` is proposed BLUE unless it already is; one step past the
   * edge the strict read fails.
   */
  method ExcludeStep(board: BoardState, c: Coord, d: Direction, i: nat, ghost base: map<Coord, Tile>, current: map<Coord, Tile>)
    returns (r: Result<map<Coord, Tile>, IndexError>)
    requires board.Filled() && 1 <= i <= RayLength(board.size, c, d) + 1
    requires current == base + Uniform(ExclusionSteps(board.Snapshot(), c, d, i - 1), BLUE)
    ensures r.Failure? <==> i == RayLength(board.size, c, d) + 1
    ensures r.Success? ==> r.value == base + Uniform(ExclusionSteps(board.Snapshot(), c, d, i), BLUE)
  {
    ghost var g := board.Snapshot();
    var targetCoord := Move(c, d, i);
    RayStep(g, c, d, i);
    var tile := board.GetTile(targetCoord);
    if tile.Failure? {
      return Failure(tile.error);
    }
    var t := tile.value.value;
    assert t == Ray(g, c, d)[i - 1];
    ExclusionStepsStep(g, c, d, i);
    if t != BLUE {
      assert ExclusionSteps(g, c, d, i) == ExclusionSteps(g, c, d, i - 1) + {targetCoord};
      UniformAdd(base, ExclusionSteps(g, c, d, i - 1), BLUE, targetCoord);
      r := Success(current[targetCoord := BLUE]);
    } else {
      assert ExclusionSteps(g, c, d, i) == ExclusionSteps(g, c, d, i - 1);
      r := Success(current);
    }
  }

  /**
   * The innermost loop of `ExclusionRule.apply`: the tiles at distance
   * 1 .. `lack` in direction `d` that are not BLUE become BLUE, read with
   * the strict accessor, which fails on the first tile past the edge.
   */
  method ExcludeSteps(board: BoardState, c: Coord, d: Direction, lack: int, actions: map<Coord, Tile>)
    returns (r: Result<map<Coord, Tile>, IndexError>)
    requires board.Filled()
    ensures r.Failure? <==> lack > RayLength(board.size, c, d)
    ensures r.Success? ==> r.value == actions + Uniform(ExclusionSteps(board.Snapshot(), c, d, lack), BLUE)
  {
    ghost var g := board.Snapshot();
    ghost var n := RayLength(board.size, c, d);
    var current := actions;
    ghost var steps := ExclusionSteps(g, c, d, 0);
    var i := 1;
    while i <= lack
      invariant 1 <= i <= n + 1
      invariant i <= lack + 1 || i == 1
      invariant steps == ExclusionSteps(g, c, d, i - 1)
      invariant current == actions + Uniform(steps, BLUE)
      decreases lack - i
    {
      assert board.Snapshot() == g;
      var step := ExcludeStep(board, c, d, i, actions, current);
      assert board.Snapshot() == g;
      if step.Failure? {
        assert lack > n;
        return step;
      }
      steps := ExclusionSteps(g, c, d, i);
      current := step.value;
      assert current == actions + Uniform(steps, BLUE);
      i := i + 1;
    }
    assert lack <= n;
    assert i - 1 == lack || lack <= i - 1 <= 0;
    ExclusionStepsBeyond(g, c, d, i - 1, lack);
    assert steps == ExclusionSteps(g, c, d, lack);
    return Success(current);
  }

  /**
   * One pass of `ExclusionRule.apply` for the unmet numbered tile `coord`:
   * `exclusionDirection` must supply what the other three cannot.
   */
  method ExclusionInDirection(state: BoardStateOhno, coord: Coord, exclusionDirection: Direction, actions: map<Coord, Tile>)
    returns (result: Result<map<Coord, Tile>, IndexError>)
    requires state.board.Filled()
    requires Unmet(state.board.Snapshot(), state.requirements, coord)
    ensures result.Failure? <==> Overruns(state.board.Snapshot(), state.requirements, coord, exclusionDirection)
    ensures result.Success? ==>
      var g := state.board.Snapshot();
      result.value == actions + Uniform(ExclusionSteps(g, coord, exclusionDirection, Lack(g, state.requirements, coord, exclusionDirection)), BLUE)
  {
    ghost var g := state.board.Snapshot();
    var requirement := state.GetTileRequirement(coord).value;
    var potentials := GetPotentialSeenExcluded(state.board, coord, exclusionDirection);
    var lack := requirement - |potentials|;
    assert state.board.Snapshot() == g;
    assert lack == Lack(g, state.requirements, coord, exclusionDirection);
    result := ExcludeSteps(state.board, coord, exclusionDirection, lack, actions);
    assert state.board.Snapshot() == g;
  }

  /** The direction loop of `ExclusionRule.apply` for the unmet numbered tile `coord`. */
  method ExclusionInDirections(state: BoardStateOhno, coord: Coord, actions: map<Coord, Tile>)
    returns (result: Result<map<Coord, Tile>, IndexError>)
    requires state.board.Filled()
    requires Unmet(state.board.Snapshot(), state.requirements, coord)
    ensures result.Failure? <==> exists d :: Overruns(state.board.Snapshot(), state.requirements, coord, d)
    ensures result.Success? ==>
      result.value == actions + Uniform(ExclusionAt(state.board.Snapshot(), state.requirements, coord), BLUE)
  {
    ghost var g := state.board.Snapshot();
    ghost var reqs := state.requirements;
    var current := actions;
    for j := 0 to |Directions|
      invariant current == actions + Uniform(ExclusionIn(g, reqs, coord, Directions[..j]), BLUE)
      invariant !AnyOverruns(g, reqs, coord, Directions[..j])
      invariant state.board.Snapshot() == g && state.requirements == reqs
    {
      var r := ExclusionInDirection(state, coord, Directions[j], current);
      assert state.board.Snapshot() == g && state.requirements == reqs;
      AnyOverrunsStep(g, reqs, coord, j);
      if r.Failure? {
        AnyOverrunsAll(g, reqs, coord);
        return r;
      }
      ExclusionInNext(g, reqs, coord, j, actions, current, r.value);
      current := r.value;
    }
    assert state.board.Snapshot() == g && state.requirements == reqs;
    ExclusionInAll(g, reqs, coord, actions, current);
    return Success(current);
  }

  /**
   * The body of `ExclusionRule.apply` for the numbered tile `coord`: fails
   * exactly when some direction overruns the edge.
   */
  method ExclusionAtTile(state: BoardStateOhno, coord: Coord, actions: map<Coord, Tile>)
    returns (result: Result<map<Coord, Tile>, IndexError>)
    requires state.board.Filled()
    requires coord in state.requirements
    ensures result.Failure? <==> exists d :: Overruns(state.board.Snapshot(), state.requirements, coord, d)
    ensures result.Success? ==>
      result.value == actions + Uniform(ExclusionAt(state.board.Snapshot(), state.requirements, coord), BLUE)
  {
    ghost var g := state.board.Snapshot();
    var requirement := state.GetTileRequirement(coord).value;
    var seen := GetAmountOfSeenTiles(state.board, coord);
    assert state.board.Snapshot() == g;
    if seen < requirement {
      result := ExclusionInDirections(state, coord, actions);
    } else {
      assert ExclusionAt(g, state.requirements, coord) == {};
      result := Success(actions);
    }
  }

  /**
   * `ExclusionRule.apply`: when the other three directions of an unmet
   * numbered tile cannot show it enough tiles, the shortfall must come from
   * the remaining direction, whose first `Lack` tiles turn BLUE. Reading
   * past the edge is the array-index failure.
   */
  method Exclusion(state: BoardStateOhno) returns (result: Result<map<Coord, Tile>, IndexError>)
    requires state.board.Filled()
    ensures result.Failure? <==> ExclusionFails(state.board.Snapshot(), state.requirements)
    ensures result.Success? ==> result.value == Uniform(ExclusionTargets(state.board.Snapshot(), state.requirements), BLUE)
  {
    ghost var g := state.board.Snapshot();
    ghost var reqs := state.requirements;
    var actions := map[];
    var todo := state.GetRequirementTiles();
    ghost var done: set<Coord> := {};
    while todo != {}
      invariant todo + done == reqs.Keys
      invariant actions == Uniform(ExclusionOver(g, reqs, done), BLUE)
      invariant NoneOverrun(g, reqs, done)
      decreases todo
    {
      var coord :| coord in todo;
      var r := ExclusionAtTile(state, coord, actions);
      assert state.board.Snapshot() == g && state.requirements == reqs;
      if r.Failure? {
        ExclusionFailsSpec(g, reqs, coord);
        return r;
      }
      ExclusionOverNext(g, reqs, done, coord, actions, r.value);
      NoneOverrunNext(g, reqs, done, coord);
      actions := r.value;
      todo := todo - {coord};
      done := done + {coord};
    }
    assert state.board.Snapshot() == g && state.requirements == reqs;
    ExclusionFailsSpec(g, reqs, Coord(0, 0));
    return Success(actions);
  }

  /** The first loop of `FillRule.apply`: does every numbered tile see at least its number? */
  method RequirementsMet(state: BoardStateOhno) returns (met: bool)
    requires state.board.Filled()
    ensures met == !FillBlocked(state.board.Snapshot(), state.requirements)
  {
    ghost var g := state.board.Snapshot();
    ghost var reqs := state.requirements;
    var todo := state.GetRequirementTiles();
    ghost var done: set<Coord> := {};
    while todo != {}
      invariant todo + done == reqs.Keys
      invariant forall c :: c in done ==> !Unmet(g, reqs, c)
      decreases todo
    {
      var coord :| coord in todo;
      var requirement := state.GetTileRequirement(coord).value;
      var seen := GetAmountOfSeenTiles(state.board, coord);
      assert state.board.Snapshot() == g;
      if seen < requirement {
        assert coord in reqs && Unmet(g, reqs, coord);
        return false;
      }
      todo := todo - {coord};
      done := done + {coord};
    }
    return true;
  }

  /**
   * `FillRule.apply`: once no number is unmet, every GREY tile turns RED;
   * otherwise nothing.
   */
  method Fill(state: BoardStateOhno) returns (actions: map<Coord, Tile>)
    requires state.board.Filled()
    ensures actions == Uniform(FillTargets(state.board.Snapshot(), state.requirements), RED)
  {
    ghost var g := state.board.Snapshot();
    actions := map[];
    var met := RequirementsMet(state);
    assert state.board.Snapshot() == g;
    if !met {
      return;
    }
    var size := state.board.size;
    for y := 0 to size
      invariant actions == Uniform(GreyBefore(g, y, 0), RED)
    {
      for x := 0 to size
        invariant actions == Uniform(GreyBefore(g, y, x), RED)
      {
        GreyBeforeNext(g, y, x, actions);
        if state.board.GetTileLenient(x, y) == Some(GREY) {
          actions := actions[Coord(x, y) := RED];
        }
      }
      GreyBeforeRow(g, y);
    }
    GreyBeforeAll(g, state.requirements);
  }
}
