/**
 * The three 0h h1 rules (ohhi/rules). Each reads the board and returns the
 * map of proposed assignments; none of them changes the board. Each is
 * proved to return exactly the map its specification in `OhhiSpec`
 * describes.
 */
module OhhiRules {
  import opened Wrappers
  import opened Tiles
  import opened Coords
  import opened Grids
  import opened Boards
  import opened OhhiSpec

  // ---------------------------------------------------------------------
  // EvenColorTilesRule

  /** The "count the tiles" loop of `EvenColorTilesRule.apply`, for line `y`. */
  method CountLine(state: BoardState, y: int, flipped: bool) returns (count: map<Tile, int>)
    requires state.Filled() && 0 <= y < state.size
    ensures GREY in count && RED in count && BLUE in count
    ensures forall t :: t in count ==> count[t] == Count(state.Snapshot(), y, flipped, t)
  {
    ghost var g := state.Snapshot();
    count := map[GREY := 0, RED := 0, BLUE := 0];
    for x := 0 to state.size
      invariant state.Snapshot() == g
      invariant count.Keys == {GREY, RED, BLUE}
      invariant forall t :: t in count ==> count[t] == CountUpTo(g, y, flipped, t, x)
    {
      var tile := state.GetTile(Flipped(x, y, flipped)).value.value;
      assert tile == LineTile(g, y, flipped, x);
      count := count[tile := count[tile] + 1];
    }
  }

  /** "Find the open spots to fill": every GREY tile of line `y` is proposed as `tile`. */
  method FillLine(state: BoardState, y: int, flipped: bool, tile: Tile, actions: map<Coord, Tile>)
    returns (result: map<Coord, Tile>)
    requires state.Filled() && 0 <= y < state.size
    ensures result == actions + Uniform(GreyIn(state.Snapshot(), y, flipped), tile)
  {
    ghost var g := state.Snapshot();
    result := actions;
    for x := 0 to state.size
      invariant state.Snapshot() == g
      invariant result == FillUpTo(g, y, flipped, tile, actions, x)
    {
      var coord := Flipped(x, y, flipped);
      var t := state.GetTile(coord).value;
      assert t == Some(LineTile(g, y, flipped, x));
      if t == Some(GREY) {
        result := result[coord := tile];
      }
    }
    FillUpToSpec(g, y, flipped, tile, actions, |g|);
  }

  /** The proposals after the first `k` positions of the fill loop. */
  function FillUpTo(g: Grid, y: int, flipped: bool, tile: Tile, actions: map<Coord, Tile>, k: nat): map<Coord, Tile>
    requires IsGrid(g) && 0 <= y < |g| && k <= |g|
  {
    if k == 0 then actions
    else
      var r := FillUpTo(g, y, flipped, tile, actions, k - 1);
      if LineTile(g, y, flipped, k - 1) == GREY then r[Flipped(k - 1, y, flipped) := tile] else r
  }

  lemma {:induction false} FillUpToSpec(g: Grid, y: int, flipped: bool, tile: Tile, actions: map<Coord, Tile>, k: nat)
    requires IsGrid(g) && 0 <= y < |g| && k <= |g|
    ensures FillUpTo(g, y, flipped, tile, actions, k) == actions + Uniform(GreyUpTo(g, y, flipped, k), tile)
  {
    if k == 0 {
      assert GreyUpTo(g, y, flipped, 0) == {};
      assert Uniform({}, tile) == map[];
      UnionEmpty(actions);
    } else {
      var before := GreyUpTo(g, y, flipped, k - 1);
      var r := FillUpTo(g, y, flipped, tile, actions, k - 1);
      FillUpToSpec(g, y, flipped, tile, actions, k - 1);
      GreyUpToStep(g, y, flipped, k - 1);
      if LineTile(g, y, flipped, k - 1) == GREY {
        var e := Flipped(k - 1, y, flipped);
        assert GreyUpTo(g, y, flipped, k) == before + {e};
        UniformAdd(actions, before, tile, e);
        assert r[e := tile] == actions + Uniform(before + {e}, tile);
        assert FillUpTo(g, y, flipped, tile, actions, k) == r[e := tile];
      } else {
        assert GreyUpTo(g, y, flipped, k) == before;
        assert FillUpTo(g, y, flipped, tile, actions, k) == r;
      }
    }
  }

  /** The body of the `y` loop of `EvenColorTilesRule.apply`. */
  method EvenColorLine(state: BoardState, y: int, flipped: bool, tilesRequired: int, actions: map<Coord, Tile>)
    returns (result: map<Coord, Tile>)
    requires state.Filled() && 0 <= y < state.size && tilesRequired == state.size / 2
    ensures result == actions + LineActions(state.Snapshot(), y, flipped)
  {
    ghost var g := state.Snapshot();
    var count := CountLine(state, y, flipped);
    UnionEmpty(actions);
    if count[GREY] == 0 {
      return actions;
    }
    result := actions;
    for j := 0 to |Colours|
      invariant state.Snapshot() == g
      invariant result == actions + Fits(g, y, flipped, Colours[..j])
    {
      var tile := Colours[j];
      ghost var current := result;
      var fits := tilesRequired - count[tile] == count[GREY];
      if fits {
        result := FillLine(state, y, flipped, tile, result);
      }
      FitsNext(g, y, flipped, actions, j, current, fits);
    }
    assert Colours[..|Colours|] == Colours;
  }

  lemma FitsNext(g: Grid, y: int, flipped: bool, actions: map<Coord, Tile>, j: int, current: map<Coord, Tile>, fits: bool)
    requires IsGrid(g) && 0 <= y < |g| && 0 <= j < |Colours|
    requires current == actions + Fits(g, y, flipped, Colours[..j])
    requires fits == (|g| / 2 - Count(g, y, flipped, Colours[j]) == Count(g, y, flipped, GREY))
    ensures (if fits then current + Uniform(GreyIn(g, y, flipped), Colours[j]) else current) ==
      actions + Fits(g, y, flipped, Colours[..j + 1])
  {
    assert Colours[..j + 1][..j] == Colours[..j];
    UnionAssoc(actions, Fits(g, y, flipped, Colours[..j]), FitFor(g, y, flipped, Colours[j]));
    UnionEmpty(current);
  }

  /** `EvenColorTilesRule.apply`: the proposals of the pass over the rows, then over the columns. */
  method EvenColorTiles(state: BoardState) returns (actions: map<Coord, Tile>)
    requires state.Filled()
    ensures actions == EvenColorActions(state.Snapshot())
  {
    ghost var g := state.Snapshot();
    var boardSize := state.size;
    var tilesRequired := boardSize / 2;
    actions := map[];
    var flipped := false;
    for i := 0 to 2
      invariant state.Snapshot() == g
      invariant flipped == (i >= 1)
      invariant actions == if i == 0 then map[] else if i == 1 then EvenPass(g, false, |g|) else EvenColorActions(g)
    {
      ghost var before := actions;
      UnionEmpty(before);
      for y := 0 to boardSize
        invariant state.Snapshot() == g
        invariant actions == before + EvenPass(g, flipped, y)
      {
        ghost var current := actions;
        actions := EvenColorLine(state, y, flipped, tilesRequired, actions);
        EvenPassNext(g, flipped, y, before, current);
      }
      UnionEmpty(EvenPass(g, flipped, |g|));
      flipped := true;
    }
  }

  lemma EvenPassNext(g: Grid, flipped: bool, y: int, before: map<Coord, Tile>, current: map<Coord, Tile>)
    requires IsGrid(g) && 0 <= y < |g|
    requires current == before + EvenPass(g, flipped, y)
    ensures current + LineActions(g, y, flipped) == before + EvenPass(g, flipped, y + 1)
  {
    UnionAssoc(before, EvenPass(g, flipped, y), LineActions(g, y, flipped));
  }

  // ---------------------------------------------------------------------
  // MaxTwoConnectedRule

  /** The `TILES` loop of `MaxTwoConnectedRule.apply` for the GREY tile (x, y). */
  method MaxTwoAtTile(state: BoardState, x: int, y: int, actions: map<Coord, Tile>) returns (result: map<Coord, Tile>)
    requires state.Filled() && InBounds(state.size, Coord(x, y))
    ensures result == MarkCell(state.Snapshot(), x, y, actions)
  {
    ghost var g := state.Snapshot();
    result := actions;
    for j := 0 to |Colours|
      invariant state.Snapshot() == g
      invariant result == MarkWith(g, x, y, actions, Colours[..j])
    {
      var tile := Colours[j];
      var east, east2 := state.GetTileLenient(x + 1, y), state.GetTileLenient(x + 2, y);
      var west, west2 := state.GetTileLenient(x - 1, y), state.GetTileLenient(x - 2, y);
      var south, south2 := state.GetTileLenient(x, y + 1), state.GetTileLenient(x, y + 2);
      var north, north2 := state.GetTileLenient(x, y - 1), state.GetTileLenient(x, y - 2);
      ghost var current := result;
      var flanked :=
        (east == Some(tile) && east2 == Some(tile))
        || (west == Some(tile) && west2 == Some(tile))
        || (south == Some(tile) && south2 == Some(tile))
        || (north == Some(tile) && north2 == Some(tile))
        || (east == Some(tile) && west == Some(tile))
        || (south == Some(tile) && north == Some(tile));
      FlankedFromReads(g, x, y, tile, east, east2, west, west2, south, south2, north, north2);
      if flanked {
        result := result[Coord(x, y) := Opposite(tile)];
      }
      assert Colours[..j + 1][..j] == Colours[..j];
    }
    assert Colours[..|Colours|] == Colours;
  }

  /** The rule's six patterns, on the eight lenient reads around (x, y), are `Flanked`. */
  lemma FlankedFromReads(g: Grid, x: int, y: int, tile: Tile,
                         east: Option<Tile>, east2: Option<Tile>, west: Option<Tile>, west2: Option<Tile>,
                         south: Option<Tile>, south2: Option<Tile>, north: Option<Tile>, north2: Option<Tile>)
    requires IsGrid(g)
    requires east == Some(Lenient(g, x + 1, y)) && east2 == Some(Lenient(g, x + 2, y))
    requires west == Some(Lenient(g, x - 1, y)) && west2 == Some(Lenient(g, x - 2, y))
    requires south == Some(Lenient(g, x, y + 1)) && south2 == Some(Lenient(g, x, y + 2))
    requires north == Some(Lenient(g, x, y - 1)) && north2 == Some(Lenient(g, x, y - 2))
    ensures Flanked(g, x, y, tile) ==
      ((east == Some(tile) && east2 == Some(tile))
      || (west == Some(tile) && west2 == Some(tile))
      || (south == Some(tile) && south2 == Some(tile))
      || (north == Some(tile) && north2 == Some(tile))
      || (east == Some(tile) && west == Some(tile))
      || (south == Some(tile) && north == Some(tile)))
  {
  }

  /** The proposals after trying the colours `ts` on tile (x, y), on top of `actions`. */
  function MarkWith(g: Grid, x: int, y: int, actions: map<Coord, Tile>, ts: seq<Tile>): map<Coord, Tile>
    requires IsGrid(g)
  {
    if ts == [] then actions
    else
      var r := MarkWith(g, x, y, actions, ts[..|ts| - 1]);
      if Flanked(g, x, y, ts[|ts| - 1]) then r[Coord(x, y) := Opposite(ts[|ts| - 1])] else r
  }

  /** The proposals after visiting tile (x, y) in the row-major scan. */
  function MarkCell(g: Grid, x: int, y: int, actions: map<Coord, Tile>): map<Coord, Tile>
    requires IsGrid(g)
  {
    MarkWith(g, x, y, actions, Colours)
  }

  /** The proposals after visiting tiles (0, y) .. (x-1, y) on top of `actions`. */
  function MarkRow(g: Grid, y: int, x: nat, actions: map<Coord, Tile>): map<Coord, Tile>
    requires IsGrid(g) && 0 <= y < |g| && x <= |g|
  {
    if x == 0 then actions
    else
      var r := MarkRow(g, y, x - 1, actions);
      if At(g, Coord(x - 1, y)) == GREY then MarkCell(g, x - 1, y, r) else r
  }

  /** The proposals after visiting rows 0 .. y-1. */
  function MarkRows(g: Grid, y: nat): map<Coord, Tile>
    requires IsGrid(g) && y <= |g|
  {
    if y == 0 then map[] else MarkRow(g, y - 1, |g|, MarkRows(g, y - 1))
  }

  /** `MaxTwoConnectedRule.apply`: every GREY tile is checked in row-major order. */
  method MaxTwoConnected(state: BoardState) returns (actions: map<Coord, Tile>)
    requires state.Filled()
    ensures actions == MaxTwoActions(state.Snapshot())
  {
    ghost var g := state.Snapshot();
    var boardSize := state.size;
    actions := map[];
    for y := 0 to boardSize
      invariant state.Snapshot() == g
      invariant actions == MarkRows(g, y)
    {
      ghost var rows := actions;
      for x := 0 to boardSize
        invariant state.Snapshot() == g
        invariant actions == MarkRow(g, y, x, rows)
      {
        var t := state.GetTile(Coord(x, y)).value;
        assert t == Some(At(g, Coord(x, y)));
        assert MarkRow(g, y, x + 1, rows) == if t == Some(GREY) then MarkCell(g, x, y, actions) else actions;
        if t != Some(GREY) {
          continue;
        }
        actions := MaxTwoAtTile(state, x, y, actions);
      }
    }
    MarkRowsSpec(g, |g|);
  }

  /** Trying both colours on a tile proposes what `CellMark` says, if anything. */
  lemma MarkCellSpec(g: Grid, x: int, y: int, actions: map<Coord, Tile>)
    requires IsGrid(g)
    ensures MarkCell(g, x, y, actions) ==
      if CellMark(g, x, y, Colours).Some? then actions[Coord(x, y) := CellMark(g, x, y, Colours).value] else actions
  {
    var p := Coord(x, y);
    assert Colours[..1] == [RED] && [RED][..0] == [];
    var r := MarkWith(g, x, y, actions, [RED]);
    assert MarkWith(g, x, y, actions, [RED][..0]) == actions;
    assert r == if Flanked(g, x, y, RED) then actions[p := BLUE] else actions;
    CellMarkSpec(g, x, y);
    if Flanked(g, x, y, BLUE) {
      assert MarkCell(g, x, y, actions) == r[p := RED];
      assert r[p := RED] == actions[p := RED];
    } else {
      assert MarkCell(g, x, y, actions) == r;
    }
  }

  lemma {:induction false} MarkRowSpec(g: Grid, y: int, x: nat, rows: map<Coord, Tile>)
    requires IsGrid(g) && 0 <= y < |g| && x <= |g|
    requires rows == MaxTwoUpTo(g, y, 0)
    ensures MarkRow(g, y, x, rows) == MaxTwoUpTo(g, y, x)
  {
    if x > 0 {
      MarkRowSpec(g, y, x - 1, rows);
      MarkCellSpec(g, x - 1, y, MarkRow(g, y, x - 1, rows));
      MaxTwoNext(g, y, x - 1, MarkRow(g, y, x - 1, rows));
    }
  }

  lemma {:induction false} MarkRowsSpec(g: Grid, y: nat)
    requires IsGrid(g) && y <= |g|
    ensures MarkRows(g, y) == MaxTwoUpTo(g, y, 0)
  {
    if y == 0 {
      assert MaxTwoUpTo(g, 0, 0) == map[];
    } else {
      MarkRowsSpec(g, y - 1);
      MarkRowSpec(g, y - 1, |g|, MarkRows(g, y - 1));
      MaxTwoRow(g, y - 1);
    }
  }

  // ---------------------------------------------------------------------
  // NoEvenLinesRule

  /** The `countGrey` loop of `NoEvenLinesRule.apply`, for line `y`. */
  method CountGrey(state: BoardState, y: int, flipped: bool) returns (countGrey: int)
    requires state.Filled() && 0 <= y < state.size
    ensures countGrey == Count(state.Snapshot(), y, flipped, GREY)
  {
    ghost var g := state.Snapshot();
    countGrey := 0;
    for x := 0 to state.size
      invariant countGrey == CountUpTo(g, y, flipped, GREY, x)
    {
      if state.GetTile(Flipped(x, y, flipped)).value == Some(GREY) {
        countGrey := countGrey + 1;
      }
    }
  }

  /** "Collect all filled or pending lines": those with no GREY tile, and those with exactly two. */
  method CollectLines(state: BoardState, flipped: bool) returns (linesFilled: seq<int>, linesPending: seq<int>)
    requires state.Filled()
    ensures linesFilled == FilledLines(state.Snapshot(), flipped)
    ensures linesPending == PendingLines(state.Snapshot(), flipped)
  {
    ghost var g := state.Snapshot();
    linesFilled, linesPending := [], [];
    for y := 0 to state.size
      invariant linesFilled == LinesWithGrey(g, flipped, 0, y)
      invariant linesPending == LinesWithGrey(g, flipped, 2, y)
    {
      var countGrey := CountGrey(state, y, flipped);
      if countGrey == 0 {
        linesFilled := linesFilled + [y];
      } else if countGrey == 2 {
        linesPending := linesPending + [y];
      }
    }
  }

  /** "Collect all grey tiles in the pending line": their positions, in order. */
  method CollectGrey(state: BoardState, linePending: int, flipped: bool) returns (tilesGrey: seq<int>)
    requires state.Filled() && 0 <= linePending < state.size
    ensures tilesGrey == GreyPositions(state.Snapshot(), linePending, flipped, state.size)
  {
    ghost var g := state.Snapshot();
    tilesGrey := [];
    for x := 0 to state.size
      invariant tilesGrey == GreyPositions(g, linePending, flipped, x)
    {
      if state.GetTile(Flipped(x, linePending, flipped)).value == Some(GREY) {
        tilesGrey := tilesGrey + [x];
      }
    }
  }

  /** The tile-by-tile comparison that skips to the next filled line on the first known tile that differs. */
  method LinesMatch(state: BoardState, linePending: int, lineFilled: int, flipped: bool) returns (matches: bool)
    requires state.Filled() && 0 <= linePending < state.size && 0 <= lineFilled < state.size
    ensures matches == Matches(state.Snapshot(), linePending, lineFilled, flipped)
  {
    ghost var g := state.Snapshot();
    for x := 0 to state.size
      invariant forall i :: 0 <= i < x ==>
        LineTile(g, linePending, flipped, i) == GREY || LineTile(g, linePending, flipped, i) == LineTile(g, lineFilled, flipped, i)
    {
      var pendingTile := state.GetTile(Flipped(x, linePending, flipped)).value.value;
      if pendingTile != GREY && pendingTile != state.GetTile(Flipped(x, lineFilled, flipped)).value.value {
        assert !(LineTile(g, linePending, flipped, x) == GREY || LineTile(g, linePending, flipped, x) == LineTile(g, lineFilled, flipped, x));
        return false;
      }
    }
    return true;
  }

  /** "Determine the new grey tile values": each GREY position of the pending line takes the filled line's other colour. */
  method PutOpposites(state: BoardState, linePending: int, lineFilled: int, flipped: bool, tilesGrey: seq<int>,
                      actions: map<Coord, Tile>) returns (result: map<Coord, Tile>)
    requires state.Filled() && 0 <= linePending < state.size && 0 <= lineFilled < state.size
    requires LinesOf(state.Snapshot(), tilesGrey)
    ensures result == actions + Complement(state.Snapshot(), linePending, lineFilled, flipped, tilesGrey)
  {
    ghost var g := state.Snapshot();
    result := actions;
    UnionEmpty(actions);
    for j := 0 to |tilesGrey|
      invariant state.Snapshot() == g
      invariant result == actions + Complement(g, linePending, lineFilled, flipped, tilesGrey[..j])
    {
      var tileGrey := tilesGrey[j];
      var filledTile := state.GetTile(Flipped(tileGrey, lineFilled, flipped)).value;
      assert filledTile == Some(LineTile(g, lineFilled, flipped, tileGrey));
      ComplementNext(g, linePending, lineFilled, flipped, tilesGrey, j, actions, result);
      result := result[Flipped(tileGrey, linePending, flipped) := if filledTile == Some(RED) then BLUE else RED];
    }
    assert tilesGrey[..|tilesGrey|] == tilesGrey;
  }

  lemma ComplementNext(g: Grid, pending: int, filled: int, flipped: bool, xs: seq<int>, j: int,
                       actions: map<Coord, Tile>, current: map<Coord, Tile>)
    requires IsGrid(g) && 0 <= pending < |g| && 0 <= filled < |g| && LinesOf(g, xs) && 0 <= j < |xs|
    requires current == actions + Complement(g, pending, filled, flipped, xs[..j])
    ensures current[Flipped(xs[j], pending, flipped) := Opposite(LineTile(g, filled, flipped, xs[j]))] ==
      actions + Complement(g, pending, filled, flipped, xs[..j + 1])
  {
    assert xs[..j + 1][..j] == xs[..j];
  }

  /** The body of the `linePending` loop of `NoEvenLinesRule.apply`. */
  method PendingLine(state: BoardState, linePending: int, flipped: bool, linesFilled: seq<int>, actions: map<Coord, Tile>)
    returns (result: map<Coord, Tile>)
    requires state.Filled() && 0 <= linePending < state.size && LinesOf(state.Snapshot(), linesFilled)
    ensures result == actions + PendingActions(state.Snapshot(), linePending, flipped, linesFilled)
  {
    ghost var g := state.Snapshot();
    var tilesGrey := CollectGrey(state, linePending, flipped);
    result := actions;
    UnionEmpty(actions);
    for j := 0 to |linesFilled|
      invariant state.Snapshot() == g
      invariant result == actions + PendingActions(g, linePending, flipped, linesFilled[..j])
    {
      var lineFilled := linesFilled[j];
      ghost var current := result;
      var matches := LinesMatch(state, linePending, lineFilled, flipped);
      assert matches == Matches(g, linePending, lineFilled, flipped);
      PendingNext(g, linePending, flipped, linesFilled, j, actions, current);
      if !matches {
        continue;
      }
      result := PutOpposites(state, linePending, lineFilled, flipped, tilesGrey, result);
    }
    assert linesFilled[..|linesFilled|] == linesFilled;
  }

  lemma PendingNext(g: Grid, pending: int, flipped: bool, fs: seq<int>, j: int, actions: map<Coord, Tile>, current: map<Coord, Tile>)
    requires IsGrid(g) && 0 <= pending < |g| && LinesOf(g, fs) && 0 <= j < |fs|
    requires current == actions + PendingActions(g, pending, flipped, fs[..j])
    ensures actions + PendingActions(g, pending, flipped, fs[..j + 1]) ==
      if Matches(g, pending, fs[j], flipped)
      then current + Complement(g, pending, fs[j], flipped, GreyPositions(g, pending, flipped, |g|))
      else current
  {
    var prefix := fs[..j + 1];
    assert prefix[..|prefix| - 1] == fs[..j] && prefix[|prefix| - 1] == fs[j];
    var previous := PendingActions(g, pending, flipped, fs[..j]);
    var complement := Complement(g, pending, fs[j], flipped, GreyPositions(g, pending, flipped, |g|));
    if Matches(g, pending, fs[j], flipped) {
      assert PendingActions(g, pending, flipped, prefix) == previous + complement;
      UnionAssoc(actions, previous, complement);
    } else {
      assert PendingActions(g, pending, flipped, prefix) == previous + map[];
      UnionEmpty(previous);
    }
  }

  /** `NoEvenLinesRule.apply`: the pass over the rows, then the pass over the columns. */
  method NoEvenLines(state: BoardState) returns (actions: map<Coord, Tile>)
    requires state.Filled()
    ensures actions == NoEvenActions(state.Snapshot())
  {
    ghost var g := state.Snapshot();
    actions := map[];
    var flipped := false;
    for i := 0 to 2
      invariant state.Snapshot() == g
      invariant flipped == (i >= 1)
      invariant actions == if i == 0 then map[]
        else if i == 1 then NoEvenPass(g, false, PendingLines(g, false), FilledLines(g, false))
        else NoEvenActions(g)
    {
      var linesFilled, linesPending := CollectLines(state, flipped);
      ghost var before := actions;
      UnionEmpty(before);
      for k := 0 to |linesPending|
        invariant state.Snapshot() == g
        invariant actions == before + NoEvenPass(g, flipped, linesPending[..k], linesFilled)
      {
        ghost var current := actions;
        actions := PendingLine(state, linesPending[k], flipped, linesFilled, actions);
        NoEvenPassNext(g, flipped, linesPending, linesFilled, k, before, current);
      }
      assert linesPending[..|linesPending|] == linesPending;
      UnionEmpty(NoEvenPass(g, flipped, linesPending, linesFilled));
      flipped := true;
    }
  }

  lemma NoEvenPassNext(g: Grid, flipped: bool, ps: seq<int>, fs: seq<int>, k: int, before: map<Coord, Tile>, current: map<Coord, Tile>)
    requires IsGrid(g) && LinesOf(g, ps) && LinesOf(g, fs) && 0 <= k < |ps|
    requires current == before + NoEvenPass(g, flipped, ps[..k], fs)
    ensures current + PendingActions(g, ps[k], flipped, fs) == before + NoEvenPass(g, flipped, ps[..k + 1], fs)
  {
    assert ps[..k + 1][..k] == ps[..k];
    UnionAssoc(before, NoEvenPass(g, flipped, ps[..k], fs), PendingActions(g, ps[k], flipped, fs));
  }
}
