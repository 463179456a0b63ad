/**
 * The 0h h1 game loop (ohhi/Ohhi.java): the board is read from the pixel
 * colours of the tiles, then the rules EvenColorTiles, MaxTwoConnected and
 * NoEvenLines are applied, each until it proposes nothing, in passes until
 * a whole pass proposes nothing. Every proposal is committed by tapping the
 * tile; the tap count is the difference of the enum ordinals, GREY, RED,
 * BLUE being the tap order. The taps are recorded as a trace of inputs.
 */
module OhhiGame {
  import opened Wrappers
  import opened Tiles
  import opened Coords
  import opened Grids
  import opened Boards
  import opened Taps
  import opened Traces
  import opened OhhiSpec
  import opened OhhiRules
  import opened OhhiTheory

  /**
   * What `setTile` can throw: an index out of the board, or the
   * NullPointerException of taking the ordinal of an unassigned cell.
   */
  datatype GameError = BoardIndex(indexError: IndexError) | NullTile

  // ---------------------------------------------------------------------
  // Committing a deduction

  /**
   * `setTile`: reads the current tile strictly, takes the difference of the
   * ordinals, plus three when negative, as the tap count, and stores the
   * target.
   */
  method SetTile(state: BoardState, coord: Coord, tile: Tile) returns (r: Result<nat, GameError>)
    requires state.Valid()
    modifies state.cells
    ensures r.Success? <==> InBounds(state.size, coord) && old(state.cells[coord.x, coord.y]).Some?
    ensures !InBounds(state.size, coord) ==> r == Failure(BoardIndex(old(state.GetTile(coord)).error))
    ensures InBounds(state.size, coord) && old(state.cells[coord.x, coord.y]).None? ==> r == Failure(NullTile)
    ensures r.Failure? ==> unchanged(state.cells)
    ensures r.Success? ==> r.value == OrdinalTaps(old(state.cells[coord.x, coord.y]).value, tile)
    ensures r.Success? ==> state.cells[coord.x, coord.y] == Some(tile)
    ensures r.Success? ==> forall x, y :: 0 <= x < state.size && 0 <= y < state.size && (x, y) != (coord.x, coord.y) ==>
      state.cells[x, y] == old(state.cells[x, y])
    ensures r.Success? && old(state.Filled()) ==> state.Filled() && state.Snapshot() == Set(old(state.Snapshot()), coord, tile)
  {
    var currentTile := state.GetTile(coord);
    if currentTile.Failure? {
      return Failure(BoardIndex(currentTile.error));
    }
    if currentTile.value.None? {
      return Failure(NullTile);
    }
    var numTaps := Ordinal(tile) as int - Ordinal(currentTile.value.value) as int;
    if numTaps < 0 {
      numTaps := numTaps + 3;
    }
    state.SetTile(coord, tile);
    return Success(numTaps);
  }

  /** `setTile` on a fully assigned board always succeeds, with the taps of the tap order GREY, RED, BLUE. */
  method CommitTile(state: BoardState, coord: Coord, tile: Tile) returns (taps: nat)
    requires state.Filled() && InBounds(state.size, coord)
    modifies state.cells
    ensures state.Filled() && state.Snapshot() == Set(old(state.Snapshot()), coord, tile)
    ensures HasTapPositions(OhhiTapOrder) && taps == TapsBetween(OhhiTapOrder, At(old(state.Snapshot()), coord), tile)
  {
    ghost var g := state.Snapshot();
    assert state.cells[coord.x, coord.y] == Some(At(g, coord));
    var r := SetTile(state, coord, tile);
    OhhiTapPositions();
    OrdinalTapsMatchOrder(At(g, coord), tile);
    taps := r.value;
  }

  /**
   * The loop over `actions.keySet()`: every proposal is committed with
   * `setTile`, in the map's iteration order, which is left open.
   */
  method CommitActions(state: BoardState, actions: map<Coord, Tile>) returns (inputs: seq<Input>)
    requires state.Filled() && KeysInBounds(state.size, actions)
    modifies state.cells
    ensures state.Filled() && state.Snapshot() == ApplyActions(old(state.Snapshot()), actions)
    ensures HasTapPositions(OhhiTapOrder) && Committed(old(state.Snapshot()), OhhiTapOrder, actions, inputs)
    ensures Replay(old(state.Snapshot()), OhhiTapOrder, inputs) == Some(state.Snapshot())
    ensures Progressing(old(state.Snapshot()), actions) ==>
      GridWeight(state.Snapshot()) + |actions| <= GridWeight(old(state.Snapshot()))
  {
    ghost var g := state.Snapshot();
    ghost var done: map<Coord, Tile> := map[];
    var todo := actions.Keys;
    inputs := [];
    OhhiTapPositions();
    CommitmentStart(g, OhhiTapOrder, actions);
    while todo != {}
      invariant state.Filled() && state.Snapshot() == ApplyActions(g, done)
      invariant Commitment(g, OhhiTapOrder, actions, done, todo, inputs)
      decreases todo
    {
      var position :| position in todo;
      var tile := actions[position];
      var taps := CommitTile(state, position, tile);
      CommitStep(g, OhhiTapOrder, actions, done, todo, inputs, position, taps);
      done := done[position := tile];
      inputs := inputs + [Input(position, tile, taps)];
      todo := todo - {position};
    }
    CommitmentEnd(g, OhhiTapOrder, actions, done, inputs);
  }

  // ---------------------------------------------------------------------
  // The rules of 0h h1

  /** The rule classes of 0h h1. */
  datatype OhhiRule = EvenColorTilesRule | MaxTwoConnectedRule | NoEvenLinesRule

  /** `RULES`: the order in which the solver applies them. */
  const Rules: seq<OhhiRule> := [EvenColorTilesRule, MaxTwoConnectedRule, NoEvenLinesRule]

  /** The actions a rule proposes for the board `g`. */
  function Proposals(rule: OhhiRule, g: Grid): map<Coord, Tile>
    requires IsGrid(g)
  {
    match rule
    case EvenColorTilesRule => EvenColorActions(g)
    case MaxTwoConnectedRule => MaxTwoActions(g)
    case NoEvenLinesRule => NoEvenActions(g)
  }

  /** `rule.apply(state)`. */
  method ApplyRule(state: BoardState, rule: OhhiRule) returns (actions: map<Coord, Tile>)
    requires state.Filled()
    ensures actions == Proposals(rule, state.Snapshot())
  {
    match rule
    case EvenColorTilesRule =>
      actions := EvenColorTiles(state);
    case MaxTwoConnectedRule =>
      actions := MaxTwoConnected(state);
    case NoEvenLinesRule =>
      actions := NoEvenLines(state);
  }

  /** Every rule only proposes a colour for GREY tiles of the board. */
  lemma ProposalsProgress(rule: OhhiRule, g: Grid)
    requires IsGrid(g)
    ensures Progressing(g, Proposals(rule, g))
  {
    forall p | p in Proposals(rule, g)
      ensures InBounds(|g|, p) && Progresses(At(g, p), Proposals(rule, g)[p])
    {
      match rule
      case EvenColorTilesRule =>
        EvenColorActionsSpec(g, p);
      case MaxTwoConnectedRule =>
        MaxTwoActionsSpec(g, p);
      case NoEvenLinesRule =>
        NoEvenActionsSpec(g, p);
    }
  }

  /** Every rule agrees with every solution, so committing its proposals keeps every solution. */
  lemma ProposalsKeepSolutions(rule: OhhiRule, g: Grid, s: Grid)
    requires IsGrid(g) && Solves(g, s)
    ensures Solves(ApplyActions(g, Proposals(rule, g)), s)
  {
    var actions := Proposals(rule, g);
    forall p | p in actions
      ensures InBounds(|g|, p) && At(s, p) == actions[p]
    {
      match rule
      case EvenColorTilesRule =>
        EvenColorSound(g, s, p);
      case MaxTwoConnectedRule =>
        MaxTwoSound(g, s, p);
      case NoEvenLinesRule =>
        NoEvenSound(g, s, p);
    }
    AgreeingActionsKeepSolution(g, s, actions);
  }

  /** A whole pass over the rules would propose nothing: where the solver stops. */
  predicate Stable(g: Grid)
    requires IsGrid(g)
  {
    forall rule :: Proposals(rule, g) == map[]
  }

  lemma SettledAll(g: Grid)
    requires IsGrid(g) && forall i :: 0 <= i < |Rules| ==> Proposals(Rules[i], g) == map[]
    ensures Stable(g)
  {
    forall rule
      ensures Proposals(rule, g) == map[]
    {
      assert rule == Rules[match rule case EvenColorTilesRule => 0 case MaxTwoConnectedRule => 1 case NoEvenLinesRule => 2];
    }
  }

  /** A board with no unknown tile left that keeps a solution is that solution. */
  lemma CompleteIsSolution(g: Grid, s: Grid)
    requires IsGrid(g) && Solves(g, s) && Complete(g)
    ensures g == s
  {
    SameTiles(g, s);
  }

  /** Every solution of `g0` is a solution of `g1`. */
  ghost predicate KeepsSolutions(g0: Grid, g1: Grid)
    requires IsGrid(g0) && IsGrid(g1)
  {
    forall s :: Solves(g0, s) ==> Solves(g1, s)
  }

  /** Committing a rule's proposals keeps every solution of the board. */
  lemma ProposalsKeepAll(rule: OhhiRule, g: Grid)
    requires IsGrid(g)
    ensures KeepsSolutions(g, ApplyActions(g, Proposals(rule, g)))
  {
    forall s | Solves(g, s)
      ensures Solves(ApplyActions(g, Proposals(rule, g)), s)
    {
      ProposalsKeepSolutions(rule, g, s);
    }
  }

  lemma KeepsSolutionsTrans(g0: Grid, g1: Grid, g2: Grid)
    requires IsGrid(g0) && IsGrid(g1) && IsGrid(g2)
    requires KeepsSolutions(g0, g1) && KeepsSolutions(g1, g2)
    ensures KeepsSolutions(g0, g2)
  {
  }

  /** `inputs` plays `g0` into `g`, and every solution of `g0` is a solution of `g`. */
  ghost predicate SoundPlay(g0: Grid, inputs: seq<Input>, g: Grid)
    requires IsGrid(g0) && IsGrid(g)
  {
    Played(g0, OhhiTapOrder, inputs, g) && KeepsSolutions(g0, g)
  }

  /** Two sound plays, one after the other, are one sound play. */
  lemma SoundPlayAppend(g0: Grid, first: seq<Input>, g1: Grid, second: seq<Input>, g2: Grid)
    requires IsGrid(g0) && IsGrid(g1) && IsGrid(g2)
    requires SoundPlay(g0, first, g1) && SoundPlay(g1, second, g2)
    ensures SoundPlay(g0, first + second, g2)
  {
    PlayedAppend(g0, OhhiTapOrder, first, g1, second, g2);
    KeepsSolutionsTrans(g0, g1, g2);
  }

  // ---------------------------------------------------------------------
  // The solver loop

  /**
   * One round of a rule inside its `do ... while` loop: apply it and commit
   * what it proposes. The round is settled when the rule proposes nothing.
   */
  method Round(state: BoardState, rule: OhhiRule) returns (settled: bool, batch: seq<Input>)
    requires state.Filled()
    modifies state.cells
    ensures state.Filled()
    ensures settled <==> Proposals(rule, old(state.Snapshot())) == map[]
    ensures settled ==> state.Snapshot() == old(state.Snapshot())
    ensures !settled ==> |batch| > 0
    ensures Played(old(state.Snapshot()), OhhiTapOrder, batch, state.Snapshot())
    ensures KeepsSolutions(old(state.Snapshot()), state.Snapshot())
  {
    ghost var g := state.Snapshot();
    var actions := ApplyRule(state, rule);
    ProposalsProgress(rule, g);
    batch := CommitActions(state, actions);
    assert |batch| == |actions|;
    assert Played(g, OhhiTapOrder, batch, state.Snapshot());
    ProposalsKeepAll(rule, g);
    if actions == map[] {
      ApplyNothing(g);
    } else {
      assert |batch| > 0;
    }
    settled := actions == map[];
  }

  /**
   * The `do ... while (!actions.isEmpty())` loop of one rule: rounds until
   * the rule proposes nothing.
   */
  method RunRule(state: BoardState, rule: OhhiRule) returns (inputs: seq<Input>)
    requires state.Filled()
    modifies state.cells
    ensures state.Filled()
    ensures Proposals(rule, state.Snapshot()) == map[]
    ensures SoundPlay(old(state.Snapshot()), inputs, state.Snapshot())
  {
    ghost var g0 := state.Snapshot();
    inputs := [];
    var more := true;
    while more
      invariant state.Filled()
      invariant SoundPlay(g0, inputs, state.Snapshot())
      invariant !more ==> Proposals(rule, state.Snapshot()) == map[]
      decreases GridWeight(state.Snapshot()) + if more then 1 else 0
    {
      ghost var g := state.Snapshot();
      var settled, batch := Round(state, rule);
      SoundPlayAppend(g0, inputs, g, batch, state.Snapshot());
      inputs := inputs + batch;
      more := !settled;
    }
  }

  /**
   * One pass of the `for (final Rule rule : RULES)` loop: every rule in
   * turn, each run until it proposes nothing. A pass that commits nothing
   * leaves the board stable.
   */
  method Pass(state: BoardState) returns (inputs: seq<Input>)
    requires state.Filled()
    modifies state.cells
    ensures state.Filled()
    ensures SoundPlay(old(state.Snapshot()), inputs, state.Snapshot())
    ensures inputs == [] ==> Stable(state.Snapshot())
  {
    ghost var g0 := state.Snapshot();
    inputs := [];
    var i := 0;
    while i < |Rules|
      invariant 0 <= i <= |Rules|
      invariant state.Filled()
      invariant SoundPlay(g0, inputs, state.Snapshot())
      invariant inputs == [] ==> forall j :: 0 <= j < i ==> Proposals(Rules[j], g0) == map[]
    {
      ghost var g := state.Snapshot();
      var batch := RunRule(state, Rules[i]);
      SoundPlayAppend(g0, inputs, g, batch, state.Snapshot());
      if batch == [] {
        assert state.Snapshot() == g;
      }
      inputs := inputs + batch;
      i := i + 1;
    }
    if inputs == [] {
      SettledAll(g0);
    }
  }

  /**
   * The solving part of `playGame`: passes over the rules until a whole
   * pass commits nothing. Every committed action fills a GREY tile, so the
   * loop ends; then no rule has anything left to say, and every solution of
   * the board as read is still a solution of the final board.
   */
  method Solve(state: BoardState) returns (inputs: seq<Input>)
    requires state.Filled()
    modifies state.cells
    ensures state.Filled()
    ensures Stable(state.Snapshot())
    ensures SoundPlay(old(state.Snapshot()), inputs, state.Snapshot())
  {
    ghost var g0 := state.Snapshot();
    inputs := [];
    var updated := true;
    while updated
      invariant state.Filled()
      invariant SoundPlay(g0, inputs, state.Snapshot())
      invariant !updated ==> Stable(state.Snapshot())
      decreases GridWeight(state.Snapshot()) + if updated then 1 else 0
    {
      ghost var g := state.Snapshot();
      var batch := Pass(state);
      SoundPlayAppend(g0, inputs, g, batch, state.Snapshot());
      inputs := inputs + batch;
      updated := batch != [];
    }
  }

  // ---------------------------------------------------------------------
  // Reading the board

  /** Every tile's colour array is long enough for the classifier. */
  ghost predicate Readable(size: nat, rgba: Coord -> seq<int>)
  {
    forall c :: InBounds(size, c) ==> FromRgba(rgba(c)).Success?
  }

  /** The board whose tile `c` is classified from the colour array `rgba(c)`. */
  function ReadGrid(size: nat, rgba: Coord -> seq<int>): (g: Grid)
    requires Readable(size, rgba)
    ensures IsGrid(g) && |g| == size
    ensures forall c :: InBounds(size, c) ==> Success(At(g, c)) == FromRgba(rgba(c))
  {
    seq(size, x requires 0 <= x < size => seq(size, y requires 0 <= y < size => FromRgba(rgba(Coord(x, y))).value))
  }

  /** The cells a row-by-row scan has visited before row `y`, column `x`. */
  predicate Scanned(size: nat, y: int, x: int, c: Coord)
  {
    0 <= c.x < size && 0 <= c.y < size && (c.y < y || (c.y == y && c.x < x))
  }

  /**
   * The reading loop of `playGame`: `rgba(c)` is the colour array fetched
   * for the centre of tile `c`, classified with `fromRgb`. A colour array
   * too short for the classifier throws, and the first such tile in
   * row-by-row order is the one reported.
   */
  method ReadBoard(size: nat, rgba: Coord -> seq<int>) returns (r: Result<BoardState, IndexError>)
    ensures r.Success? <==> Readable(size, rgba)
    ensures r.Success? ==> fresh(r.value) && fresh(r.value.cells) && r.value.size == size && r.value.Filled()
    ensures r.Success? ==> r.value.Snapshot() == ReadGrid(size, rgba)
    ensures r.Failure? ==>
      exists c :: InBounds(size, c) && FromRgba(rgba(c)) == Failure(r.error) &&
        forall o :: Scanned(size, c.y, c.x, o) ==> FromRgba(rgba(o)).Success?
  {
    var state := new BoardState(size);
    var y := 0;
    while y < size
      invariant 0 <= y <= size
      invariant fresh(state) && fresh(state.cells) && state.Valid() && state.size == size
      invariant forall a, b :: Scanned(size, y, 0, Coord(a, b)) ==>
        FromRgba(rgba(Coord(a, b))).Success? && state.cells[a, b] == Some(FromRgba(rgba(Coord(a, b))).value)
    {
      var x := 0;
      while x < size
        invariant 0 <= x <= size
        invariant fresh(state) && fresh(state.cells) && state.Valid() && state.size == size
        invariant forall a, b :: Scanned(size, y, x, Coord(a, b)) ==>
          FromRgba(rgba(Coord(a, b))).Success? && state.cells[a, b] == Some(FromRgba(rgba(Coord(a, b))).value)
      {
        var tile := FromRgba(rgba(Coord(x, y)));
        if tile.Failure? {
          return Failure(tile.error);
        }
        state.SetTile(Coord(x, y), tile.value);
        x := x + 1;
      }
      y := y + 1;
    }
    assert forall a, b :: 0 <= a < size && 0 <= b < size ==> Scanned(size, size, 0, Coord(a, b));
    SameTiles(state.Snapshot(), ReadGrid(size, rgba));
    return Success(state);
  }

  /**
   * `playGame` without its screen and device I/O: read the board and solve
   * it. The trace of inputs, replayed on the board as read, gives the final
   * board; no rule has anything left to propose, and every solution of the
   * board as read is a solution of the final board.
   */
  method PlayGame(size: nat, rgba: Coord -> seq<int>) returns (r: Result<(BoardState, seq<Input>), IndexError>)
    ensures r.Success? <==> Readable(size, rgba)
    ensures r.Failure? ==>
      exists c :: InBounds(size, c) && FromRgba(rgba(c)) == Failure(r.error) &&
        forall o :: Scanned(size, c.y, c.x, o) ==> FromRgba(rgba(o)).Success?
    ensures r.Success? ==> r.value.0.size == size && r.value.0.Filled() && Stable(r.value.0.Snapshot())
    ensures r.Success? ==> SoundPlay(ReadGrid(size, rgba), r.value.1, r.value.0.Snapshot())
  {
    var board := ReadBoard(size, rgba);
    if board.Failure? {
      return Failure(board.error);
    }
    var state := board.value;
    var inputs := Solve(state);
    return Success((state, inputs));
  }
}
