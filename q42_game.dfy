/**
 * The q42 game loop (q42/Q42Game.java) in its 0h n0 configuration
 * (q42/ohno/Ohno.java: the rules Exclusion, Overflow, Completed, Fill in
 * that order, and the tap order GREY, BLUE, RED).
 *
 * The board is read from the screen colours, the numbered tiles get their
 * numbers, and then the rules are applied until a whole pass over them
 * proposes nothing. Every proposal is committed by tapping the tile on the
 * device until it shows the new colour; the taps are recorded as a trace
 * of inputs instead of being sent.
 */
module Q42Game {
  import opened Wrappers
  import opened Tiles
  import opened Coords
  import opened Grids
  import opened Boards
  import opened Taps
  import opened Traces
  import opened OhnoBoards
  import opened OhnoScan
  import opened OhnoSpec
  import opened OhnoRules
  import opened OhnoTheory

  /** What `playGame` can throw: an index out of the board, or a tile without a tap position. */
  datatype GameError = BoardIndex(indexError: IndexError) | Tapping(tapError: TapError)

  // ---------------------------------------------------------------------
  // Committing a deduction

  /**
   * `setTile`: reads the current tile strictly, counts the taps from its
   * tap position to the target's, and stores the target. The target's tap
   * position is looked up first, then the current tile's; an unassigned
   * cell has none.
   */
  method SetTile(state: BoardState, order: seq<Tile>, coord: Coord, tile: Tile) returns (r: Result<nat, GameError>)
    requires state.Valid()
    modifies state.cells
    ensures r.Success? <==>
      InBounds(state.size, coord) && tile in order && old(state.cells[coord.x, coord.y]).Some? &&
      old(state.cells[coord.x, coord.y]).value in order
    ensures !InBounds(state.size, coord) ==> r == Failure(BoardIndex(old(state.GetTile(coord)).error))
    ensures InBounds(state.size, coord) && tile !in order ==> r == Failure(Tapping(NoTapPosition(Some(tile))))
    ensures InBounds(state.size, coord) && tile in order && r.Failure? ==>
      r == Failure(Tapping(NoTapPosition(old(state.cells[coord.x, coord.y]))))
    ensures r.Failure? ==> unchanged(state.cells)
    ensures r.Success? ==> r.value == TapsBetween(order, old(state.cells[coord.x, coord.y]).value, tile)
    ensures r.Success? ==> state.cells[coord.x, coord.y] == Some(tile)
    ensures r.Success? ==> forall x, y :: 0 <= x < state.size && 0 <= y < state.size && (x, y) != (coord.x, coord.y) ==>
      state.cells[x, y] == old(state.cells[x, y])
    ensures r.Success? && old(state.Filled()) ==> state.Filled() && state.Snapshot() == Set(old(state.Snapshot()), coord, tile)
  {
    var currentTile := state.GetTile(coord);
    if currentTile.Failure? {
      return Failure(BoardIndex(currentTile.error));
    }
    var to := TapPosition(order, Some(tile));
    if to.Failure? {
      return Failure(Tapping(to.error));
    }
    var from := TapPosition(order, currentTile.value);
    if from.Failure? {
      return Failure(Tapping(from.error));
    }
    var numTaps := to.value as int - from.value as int;
    if numTaps < 0 {
      numTaps := numTaps + |order|;
    }
    state.SetTile(coord, tile);
    return Success(numTaps);
  }

  /** `setTile` on a fully assigned board with a complete tap order: it always succeeds. */
  method CommitTile(state: BoardState, order: seq<Tile>, coord: Coord, tile: Tile) returns (taps: nat)
    requires state.Filled() && HasTapPositions(order) && InBounds(state.size, coord)
    modifies state.cells
    ensures state.Filled() && state.Snapshot() == Set(old(state.Snapshot()), coord, tile)
    ensures taps == TapsBetween(order, At(old(state.Snapshot()), coord), tile)
  {
    ghost var g := state.Snapshot();
    assert state.cells[coord.x, coord.y] == Some(At(g, coord));
    var r := SetTile(state, order, coord, tile);
    taps := r.value;
  }

  /**
   * The loop over `actions.keySet()`: every proposal is committed with
   * `setTile`, in the map's iteration order, which is left open.
   */
  method CommitActions(state: BoardState, order: seq<Tile>, actions: map<Coord, Tile>) returns (inputs: seq<Input>)
    requires state.Filled() && HasTapPositions(order) && KeysInBounds(state.size, actions)
    modifies state.cells
    ensures state.Filled() && state.Snapshot() == ApplyActions(old(state.Snapshot()), actions)
    ensures Committed(old(state.Snapshot()), order, actions, inputs)
    ensures Replay(old(state.Snapshot()), order, inputs) == Some(state.Snapshot())
    ensures Progressing(old(state.Snapshot()), actions) ==>
      GridWeight(state.Snapshot()) + |actions| <= GridWeight(old(state.Snapshot()))
  {
    ghost var g := state.Snapshot();
    ghost var done: map<Coord, Tile> := map[];
    var todo := actions.Keys;
    inputs := [];
    CommitmentStart(g, order, actions);
    while todo != {}
      invariant state.Filled() && state.Snapshot() == ApplyActions(g, done)
      invariant Commitment(g, order, actions, done, todo, inputs)
      decreases todo
    {
      var position :| position in todo;
      var tile := actions[position];
      var taps := CommitTile(state, order, position, tile);
      CommitStep(g, order, actions, done, todo, inputs, position, taps);
      done := done[position := tile];
      inputs := inputs + [Input(position, tile, taps)];
      todo := todo - {position};
    }
    CommitmentEnd(g, order, actions, done, inputs);
  }

  // ---------------------------------------------------------------------
  // The rules of 0h n0

  /** The rule classes of 0h n0. */
  datatype OhnoRule = ExclusionRule | OverflowRule | CompletedRule | FillRule

  /** `RULES`: the order in which the solver applies them. */
  const Rules: seq<OhnoRule> := [ExclusionRule, OverflowRule, CompletedRule, FillRule]

  /** The actions a rule proposes for the board `g` with the numbers `reqs`. */
  function Proposals(rule: OhnoRule, g: Grid, reqs: Requirements): map<Coord, Tile>
    requires IsGrid(g)
  {
    match rule
    case ExclusionRule => Uniform(ExclusionTargets(g, reqs), BLUE)
    case OverflowRule => Uniform(OverflowTargets(g, reqs), RED)
    case CompletedRule => Uniform(CompletedTargets(g, reqs), RED)
    case FillRule => Uniform(FillTargets(g, reqs), RED)
  }

  /** Only the exclusion rule can throw: when its strict read runs off the board. */
  predicate RuleFails(rule: OhnoRule, g: Grid, reqs: Requirements)
    requires IsGrid(g)
  {
    rule == ExclusionRule && ExclusionFails(g, reqs)
  }

  /** `rule.apply(state)`. */
  method ApplyRule(state: BoardStateOhno, rule: OhnoRule) returns (r: Result<map<Coord, Tile>, IndexError>)
    requires state.board.Filled()
    ensures r.Failure? <==> RuleFails(rule, state.board.Snapshot(), state.requirements)
    ensures r.Success? ==> r.value == Proposals(rule, state.board.Snapshot(), state.requirements)
  {
    match rule
    case ExclusionRule =>
      r := Exclusion(state);
    case OverflowRule =>
      var actions := Overflow(state);
      r := Success(actions);
    case CompletedRule =>
      var actions := Completed(state);
      r := Success(actions);
    case FillRule =>
      var actions := Fill(state);
      r := Success(actions);
  }

  /** Every proposal of every rule names a tile of the board and makes progress on it. */
  lemma ProposalsProgress(rule: OhnoRule, g: Grid, reqs: Requirements)
    requires IsGrid(g)
    ensures Progressing(g, Proposals(rule, g, reqs))
  {
    RedRulesProgress(g, reqs);
    ExclusionProgresses(g, reqs);
  }

  /**
   * The exclusion, overflow and completed rules never fail on a solvable
   * board and keep every solution when their proposals are committed.
   */
  lemma ProposalsKeepSolutions(rule: OhnoRule, g: Grid, reqs: Requirements, s: Grid)
    requires IsGrid(g) && Solves(g, reqs, s) && rule != FillRule
    ensures !RuleFails(rule, g, reqs)
    ensures Solves(ApplyActions(g, Proposals(rule, g, reqs)), reqs, s)
  {
    DeductionsKeepSolutions(g, reqs, s);
  }

  /** The fill rule fires only once every number is met, and then finishes the board. */
  lemma FillFinishes(g: Grid, reqs: Requirements)
    requires IsGrid(g) && (forall c :: c in reqs ==> SeenCount(g, c) == reqs[c])
    ensures Complete(ApplyActions(g, Proposals(FillRule, g, reqs)))
    ensures Solves(g, reqs, ApplyActions(g, Proposals(FillRule, g, reqs)))
  {
    FillSolves(g, reqs);
  }

  /** The rule has nothing more to say: it does not throw and proposes nothing. */
  predicate Settled(rule: OhnoRule, g: Grid, reqs: Requirements)
    requires IsGrid(g)
  {
    !RuleFails(rule, g, reqs) && Proposals(rule, g, reqs) == map[]
  }

  /** A whole pass over the rules would propose nothing: where the solver stops. */
  predicate Stable(g: Grid, reqs: Requirements)
    requires IsGrid(g)
  {
    forall rule :: Settled(rule, g, reqs)
  }

  lemma SettledAll(g: Grid, reqs: Requirements)
    requires IsGrid(g) && forall i :: 0 <= i < |Rules| ==> Settled(Rules[i], g, reqs)
    ensures Stable(g, reqs)
  {
    forall rule
      ensures Settled(rule, g, reqs)
    {
      assert rule == Rules[match rule case ExclusionRule => 0 case OverflowRule => 1 case CompletedRule => 2 case FillRule => 3];
    }
  }

  /**
   * Where the solver stops, either no tile is unknown or some number still
   * lacks BLUE tiles; and if every number is met exactly, the board is solved.
   */
  lemma StableOutcome(g: Grid, reqs: Requirements)
    requires IsGrid(g) && Stable(g, reqs)
    ensures Complete(g) || FillBlocked(g, reqs)
    ensures (forall c :: c in reqs ==> SeenCount(g, c) == reqs[c]) ==> Solves(g, reqs, g)
  {
    assert Settled(FillRule, g, reqs);
    if !FillBlocked(g, reqs) {
      forall p | InBounds(|g|, p)
        ensures At(g, p) != GREY
      {
        FillTargetsSpec(g, reqs, p);
        assert p !in Proposals(FillRule, g, reqs);
      }
    }
  }

  // ---------------------------------------------------------------------
  // The solver loop

  /**
   * One round of a rule inside its `do ... while` loop: apply it and commit
   * what it proposes. A rule that throws changes nothing; otherwise the
   * round commits nothing exactly when the rule is settled.
   */
  method Round(state: BoardStateOhno, order: seq<Tile>, rule: OhnoRule) returns (r: Result<seq<Input>, GameError>)
    requires state.board.Filled() && HasTapPositions(order)
    modifies state.board.cells
    ensures state.board.Filled()
    ensures r.Failure? ==> r.error.BoardIndex? && RuleFails(rule, old(state.board.Snapshot()), state.requirements)
    ensures r.Failure? ==> state.board.Snapshot() == old(state.board.Snapshot())
    ensures r.Success? ==> Played(old(state.board.Snapshot()), order, r.value, state.board.Snapshot())
    ensures r.Success? ==> (r.value == [] <==> Settled(rule, old(state.board.Snapshot()), state.requirements))
    ensures r.Success? && r.value == [] ==> state.board.Snapshot() == old(state.board.Snapshot())
  {
    ghost var g := state.board.Snapshot();
    var actions := ApplyRule(state, rule);
    if actions.Failure? {
      return Failure(BoardIndex(actions.error));
    }
    ProposalsProgress(rule, g, state.requirements);
    var batch := CommitActions(state.board, order, actions.value);
    assert |batch| == |actions.value|;
    assert Played(g, order, batch, state.board.Snapshot());
    if actions.value == map[] {
      ApplyNothing(g);
    } else {
      assert |batch| > 0;
    }
    return Success(batch);
  }

  /**
   * The `do ... while (!actions.isEmpty())` loop of one rule: rounds until
   * the rule proposes nothing.
   */
  method RunRule(state: BoardStateOhno, order: seq<Tile>, rule: OhnoRule) returns (r: Result<seq<Input>, GameError>)
    requires state.board.Filled() && HasTapPositions(order)
    modifies state.board.cells
    ensures state.board.Filled()
    ensures r.Success? ==> Settled(rule, state.board.Snapshot(), state.requirements)
    ensures r.Success? ==> Played(old(state.board.Snapshot()), order, r.value, state.board.Snapshot())
    ensures r.Failure? ==> r.error.BoardIndex? && RuleFails(rule, state.board.Snapshot(), state.requirements)
  {
    ghost var g0 := state.board.Snapshot();
    var inputs := [];
    var more := true;
    while more
      invariant state.board.Filled()
      invariant Played(g0, order, inputs, state.board.Snapshot())
      invariant !more ==> Settled(rule, state.board.Snapshot(), state.requirements)
      decreases GridWeight(state.board.Snapshot()) + if more then 1 else 0
    {
      ghost var g := state.board.Snapshot();
      var batch := Round(state, order, rule);
      if batch.Failure? {
        return Failure(batch.error);
      }
      PlayedAppend(g0, order, inputs, g, batch.value, state.board.Snapshot());
      inputs := inputs + batch.value;
      more := batch.value != [];
    }
    return Success(inputs);
  }

  /**
   * One pass of the `for (final Rule rule : getRules())` loop: every rule in
   * turn, each run until it proposes nothing. A pass that commits nothing
   * leaves the board stable.
   */
  method Pass(state: BoardStateOhno, order: seq<Tile>) returns (r: Result<seq<Input>, GameError>)
    requires state.board.Filled() && HasTapPositions(order)
    modifies state.board.cells
    ensures state.board.Filled()
    ensures r.Success? ==> Played(old(state.board.Snapshot()), order, r.value, state.board.Snapshot())
    ensures r.Success? && r.value == [] ==> Stable(state.board.Snapshot(), state.requirements)
    ensures r.Failure? ==> r.error.BoardIndex? && ExclusionFails(state.board.Snapshot(), state.requirements)
  {
    ghost var g0 := state.board.Snapshot();
    var inputs := [];
    var i := 0;
    while i < |Rules|
      invariant 0 <= i <= |Rules|
      invariant state.board.Filled()
      invariant Played(g0, order, inputs, state.board.Snapshot())
      invariant inputs == [] ==> forall j :: 0 <= j < i ==> Settled(Rules[j], g0, state.requirements)
    {
      ghost var g := state.board.Snapshot();
      var batch := RunRule(state, order, Rules[i]);
      if batch.Failure? {
        return Failure(batch.error);
      }
      PlayedAppend(g0, order, inputs, g, batch.value, state.board.Snapshot());
      if batch.value == [] {
        assert state.board.Snapshot() == g;
      }
      inputs := inputs + batch.value;
      i := i + 1;
    }
    if inputs == [] {
      SettledAll(g0, state.requirements);
    }
    return Success(inputs);
  }

  /**
   * The solving part of `playGame`: passes over the rules until a whole
   * pass commits nothing. Every committed action lowers the measure, so the
   * loop ends; when it ends normally no rule has anything left to say.
   */
  method Solve(state: BoardStateOhno, order: seq<Tile>) returns (r: Result<seq<Input>, GameError>)
    requires state.board.Filled() && HasTapPositions(order)
    modifies state.board.cells
    ensures state.board.Filled()
    ensures r.Success? ==> Stable(state.board.Snapshot(), state.requirements)
    ensures r.Success? ==> Played(old(state.board.Snapshot()), order, r.value, state.board.Snapshot())
    ensures r.Failure? ==> r.error.BoardIndex? && ExclusionFails(state.board.Snapshot(), state.requirements)
  {
    ghost var g0 := state.board.Snapshot();
    var inputs := [];
    var updated := true;
    while updated
      invariant state.board.Filled()
      invariant Played(g0, order, inputs, state.board.Snapshot())
      invariant !updated ==> Stable(state.board.Snapshot(), state.requirements)
      decreases GridWeight(state.board.Snapshot()) + if updated then 1 else 0
    {
      ghost var g := state.board.Snapshot();
      var batch := Pass(state, order);
      if batch.Failure? {
        return Failure(batch.error);
      }
      PlayedAppend(g0, order, inputs, g, batch.value, state.board.Snapshot());
      inputs := inputs + batch.value;
      updated := batch.value != [];
    }
    return Success(inputs);
  }

  // ---------------------------------------------------------------------
  // Reading the board

  /** The board whose tile `c` is classified from the colour `colour(c)`. */
  function ReadGrid(size: nat, colour: Coord -> Colour): (g: Grid)
    ensures IsGrid(g) && |g| == size
    ensures forall c :: InBounds(size, c) ==> At(g, c) == FromRgb(colour(c))
  {
    seq(size, x => seq(size, y => FromRgb(colour(Coord(x, y)))))
  }

  /** The cells a row-by-row scan has visited before row `y`, column `x`. */
  predicate Scanned(size: nat, y: int, x: int, c: Coord)
  {
    0 <= c.x < size && 0 <= c.y < size && (c.y < y || (c.y == y && c.x < x))
  }

  /**
   * The board as read from the screen: `colour(c)` is the pixel colour at
   * the centre of tile `c`, and every cell is classified with `fromRgb`.
   */
  method ReadBoard(size: nat, colour: Coord -> Colour) returns (state: BoardStateOhno)
    ensures fresh(state) && fresh(state.board) && fresh(state.board.cells)
    ensures state.board.size == size && state.requirements == map[]
    ensures state.board.Filled()
    ensures forall c :: InBounds(size, c) ==> At(state.board.Snapshot(), c) == FromRgb(colour(c))
  {
    state := new BoardStateOhno(size);
    var y := 0;
    while y < size
      invariant 0 <= y <= size
      invariant fresh(state.board.cells) && state.board.Valid() && state.board.size == size
      invariant state.requirements == map[]
      invariant forall a, b :: Scanned(size, y, 0, Coord(a, b)) ==> state.board.cells[a, b] == Some(FromRgb(colour(Coord(a, b))))
    {
      var x := 0;
      while x < size
        invariant 0 <= x <= size
        invariant fresh(state.board.cells) && state.board.Valid() && state.board.size == size
        invariant state.requirements == map[]
        invariant forall a, b :: Scanned(size, y, x, Coord(a, b)) ==> state.board.cells[a, b] == Some(FromRgb(colour(Coord(a, b))))
      {
        state.board.SetTile(Coord(x, y), FromRgb(colour(Coord(x, y))));
        x := x + 1;
      }
      y := y + 1;
    }
    assert forall a, b :: 0 <= a < size && 0 <= b < size ==> Scanned(size, size, 0, Coord(a, b));
  }

  /**
   * `after` is `before` with the number `number(c)` attached to every BLUE
   * tile `c` that a row-by-row scan has visited before row `y`, column `x`.
   */
  ghost predicate Attached(g: Grid, number: Coord -> int, before: Requirements, after: Requirements, y: int, x: int)
    requires IsGrid(g)
  {
    (forall c :: c in after <==> c in before || (Scanned(|g|, y, x, c) && At(g, c) == BLUE)) &&
    (forall c :: c in after ==> after[c] == (if Scanned(|g|, y, x, c) && At(g, c) == BLUE then number(c) else before[c]))
  }

  lemma AttachStep(g: Grid, number: Coord -> int, before: Requirements, after: Requirements, y: int, x: int)
    requires IsGrid(g) && 0 <= x < |g| && 0 <= y < |g| && Attached(g, number, before, after, y, x)
    ensures var c := Coord(x, y);
      Attached(g, number, before, if At(g, c) == BLUE then after[c := number(c)] else after, y, x + 1)
  {
  }

  lemma AttachRow(g: Grid, number: Coord -> int, before: Requirements, after: Requirements, y: int)
    requires IsGrid(g) && Attached(g, number, before, after, y, |g|)
    ensures Attached(g, number, before, after, y + 1, 0)
  {
    forall c
      ensures Scanned(|g|, y, |g|, c) <==> Scanned(|g|, y + 1, 0, c)
    {
    }
  }

  lemma AttachAll(g: Grid, number: Coord -> int, before: Requirements, after: Requirements)
    requires IsGrid(g) && Attached(g, number, before, after, |g|, 0)
    ensures forall c :: c in after <==> c in before || (InBounds(|g|, c) && At(g, c) == BLUE)
    ensures forall c :: c in after ==> after[c] == (if InBounds(|g|, c) && At(g, c) == BLUE then number(c) else before[c])
  {
    forall c
      ensures Scanned(|g|, |g|, 0, c) <==> InBounds(|g|, c)
    {
    }
  }

  /**
   * `finaliseBoardState` of 0h n0: every BLUE tile gets the number read on
   * it (`number(c)`, the result of `readNumber`) as its requirement.
   */
  method FinaliseBoard(state: BoardStateOhno, number: Coord -> int)
    requires state.board.Filled()
    modifies state
    ensures forall c :: c in state.requirements <==>
      c in old(state.requirements) || (InBounds(state.board.size, c) && At(state.board.Snapshot(), c) == BLUE)
    ensures forall c :: c in state.requirements ==>
      state.requirements[c] == if InBounds(state.board.size, c) && At(state.board.Snapshot(), c) == BLUE
        then number(c) else old(state.requirements)[c]
  {
    ghost var g := state.board.Snapshot();
    ghost var reqs := state.requirements;
    var size := state.board.size;
    var y := 0;
    while y < size
      invariant 0 <= y <= size
      invariant state.board.Filled() && state.board.Snapshot() == g
      invariant Attached(g, number, reqs, state.requirements, y, 0)
    {
      var x := 0;
      while x < size
        invariant 0 <= x <= size
        invariant state.board.Filled() && state.board.Snapshot() == g
        invariant Attached(g, number, reqs, state.requirements, y, x)
      {
        var coord := Coord(x, y);
        var tile := state.board.GetTile(coord);
        AttachStep(g, number, reqs, state.requirements, y, x);
        if tile == Success(Some(BLUE)) {
          state.SetTileRequirement(coord, number(coord));
        }
        x := x + 1;
      }
      AttachRow(g, number, reqs, state.requirements, y);
      y := y + 1;
    }
    AttachAll(g, number, reqs, state.requirements);
  }

  /**
   * `playGame` for 0h n0 without its screen and device I/O: read the board,
   * attach the numbers to the BLUE tiles, and solve with the tap order
   * GREY, BLUE, RED. The trace of inputs, replayed on the board as read,
   * gives the final board.
   */
  method PlayGame(size: nat, colour: Coord -> Colour, number: Coord -> int) returns (state: BoardStateOhno, r: Result<seq<Input>, GameError>)
    ensures state.board.size == size && state.board.Filled()
    ensures forall c :: c in state.requirements <==> InBounds(size, c) && FromRgb(colour(c)) == BLUE
    ensures forall c :: c in state.requirements ==> state.requirements[c] == number(c)
    ensures r.Success? ==> Stable(state.board.Snapshot(), state.requirements)
    ensures r.Success? ==> Played(ReadGrid(size, colour), OhnoTapOrder, r.value, state.board.Snapshot())
    ensures r.Failure? ==> ExclusionFails(state.board.Snapshot(), state.requirements)
  {
    state := ReadBoard(size, colour);
    ghost var g := state.board.Snapshot();
    FinaliseBoard(state, number);
    SameTiles(g, ReadGrid(size, colour));
    OhnoTapPositions();
    r := Solve(state, OhnoTapOrder);
  }
}
