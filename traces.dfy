/**
 * The trace of inputs a solver sends to the device, and what committing a
 * map of proposals one tile at a time does to the board and to the trace.
 * Both games commit proposals this way (q42/Q42Game.java and ohhi/Ohhi.java,
 * the loop over `actions.keySet()` calling `setTile`).
 */
module Traces {
  import opened Wrappers
  import opened Tiles
  import opened Coords
  import opened Grids
  import opened Taps

  /** One committed deduction: the tile, its new colour, and the taps it took on the device. */
  datatype Input = Input(coord: Coord, tile: Tile, taps: nat)

  /** `input` commits one of `actions` on the board `g`, with the taps its tap order needs. */
  predicate InputFor(g: Grid, order: seq<Tile>, actions: map<Coord, Tile>, input: Input)
    requires IsGrid(g) && HasTapPositions(order)
  {
    input.coord in actions && input.tile == actions[input.coord] && InBounds(|g|, input.coord) &&
    input.taps == TapsBetween(order, At(g, input.coord), input.tile)
  }

  /**
   * Replaying a trace of inputs on the board `g`: each input names a tile of
   * the board and its taps are exactly those that turn the tile's colour at
   * that moment into the input's colour. None when some input does not fit.
   */
  function Replay(g: Grid, order: seq<Tile>, inputs: seq<Input>): (r: Option<Grid>)
    requires IsGrid(g)
    ensures r.Some? ==> IsGrid(r.value) && |r.value| == |g|
    decreases |inputs|
  {
    if inputs == [] then Some(g)
    else
      var input := inputs[|inputs| - 1];
      match Replay(g, order, inputs[..|inputs| - 1])
      case None => None
      case Some(current) =>
        if InBounds(|g|, input.coord) && At(current, input.coord) in order && input.tile in order &&
           input.taps == TapsBetween(order, At(current, input.coord), input.tile)
        then Some(Set(current, input.coord, input.tile))
        else None
  }

  /** Replaying two traces one after the other is replaying their concatenation. */
  lemma {:induction false} ReplayAppend(g: Grid, order: seq<Tile>, first: seq<Input>, second: seq<Input>)
    requires IsGrid(g)
    ensures Replay(g, order, first + second) ==
      match Replay(g, order, first)
      case None => None
      case Some(h) => Replay(h, order, second)
    decreases |second|
  {
    if second == [] {
      assert first + second == first;
    } else {
      var all := first + second;
      assert all[..|all| - 1] == first + second[..|second| - 1];
      assert all[|all| - 1] == second[|second| - 1];
      ReplayAppend(g, order, first, second[..|second| - 1]);
    }
  }

  /**
   * `inputs`, tapped on `g0`, leads to `g`, and every input made progress:
   * the progress measure dropped by at least one per input.
   */
  ghost predicate Played(g0: Grid, order: seq<Tile>, inputs: seq<Input>, g: Grid)
    requires IsGrid(g0)
  {
    Replay(g0, order, inputs) == Some(g) && GridWeight(g) + |inputs| <= GridWeight(g0)
  }

  /** Two played traces, one after the other, are one played trace. */
  lemma PlayedAppend(g0: Grid, order: seq<Tile>, first: seq<Input>, g1: Grid, second: seq<Input>, g2: Grid)
    requires IsGrid(g0) && IsGrid(g1)
    requires Played(g0, order, first, g1) && Played(g1, order, second, g2)
    ensures Played(g0, order, first + second, g2)
  {
    ReplayAppend(g0, order, first, second);
  }

  /** Every replayed input shows its colour on the device: its taps cycle the tile to exactly that colour. */
  lemma ReplayedTapsReachTarget(g: Grid, order: seq<Tile>, inputs: seq<Input>)
    requires IsGrid(g) && inputs != [] && Replay(g, order, inputs).Some?
    ensures var input := inputs[|inputs| - 1];
      var current := Replay(g, order, inputs[..|inputs| - 1]).value;
      InBounds(|g|, input.coord) &&
      order[Advance(FirstIndex(order, At(current, input.coord)).value, input.taps, |order|)] == input.tile
  {
    var input := inputs[|inputs| - 1];
    var current := Replay(g, order, inputs[..|inputs| - 1]).value;
    TapsBetweenReachTarget(order, At(current, input.coord), input.tile);
  }

  /** `inputs` commits each of `actions` exactly once. */
  predicate Committed(g: Grid, order: seq<Tile>, actions: map<Coord, Tile>, inputs: seq<Input>)
    requires IsGrid(g) && HasTapPositions(order)
  {
    |inputs| == |actions| &&
    (forall i :: 0 <= i < |inputs| ==> InputFor(g, order, actions, inputs[i])) &&
    (forall i, j :: 0 <= i < j < |inputs| ==> inputs[i].coord != inputs[j].coord)
  }

  /** `inputs` commits the actions `done`, a part of `actions`, each once. */
  ghost predicate CommittedSoFar(g: Grid, order: seq<Tile>, actions: map<Coord, Tile>, done: map<Coord, Tile>, inputs: seq<Input>)
    requires IsGrid(g) && HasTapPositions(order)
  {
    (forall c :: c in done ==> c in actions && done[c] == actions[c]) &&
    |inputs| == |done| &&
    (forall i :: 0 <= i < |inputs| ==> inputs[i].coord in done && InputFor(g, order, actions, inputs[i])) &&
    (forall i, j :: 0 <= i < j < |inputs| ==> inputs[i].coord != inputs[j].coord)
  }

  /** Every committed progressing action has lowered the measure by at least one. */
  ghost predicate WeightSoFar(g: Grid, actions: map<Coord, Tile>, done: map<Coord, Tile>)
    requires IsGrid(g)
  {
    Progressing(g, actions) ==> GridWeight(ApplyActions(g, done)) + |done| <= GridWeight(g)
  }

  /**
   * The state of the commit loop: the actions `done` are committed, each
   * once, by `inputs`, the ones in `todo` are not yet, and every committed
   * progressing action has lowered the measure.
   */
  ghost predicate Commitment(g: Grid, order: seq<Tile>, actions: map<Coord, Tile>, done: map<Coord, Tile>,
                             todo: set<Coord>, inputs: seq<Input>)
    requires IsGrid(g) && HasTapPositions(order)
  {
    KeysInBounds(|g|, actions) && todo <= actions.Keys && done.Keys == actions.Keys - todo &&
    Replay(g, order, inputs) == Some(ApplyActions(g, done)) &&
    CommittedSoFar(g, order, actions, done, inputs) && WeightSoFar(g, actions, done)
  }

  lemma CommitmentStart(g: Grid, order: seq<Tile>, actions: map<Coord, Tile>)
    requires IsGrid(g) && HasTapPositions(order) && KeysInBounds(|g|, actions)
    ensures Commitment(g, order, actions, map[], actions.Keys, [])
    ensures ApplyActions(g, map[]) == g
  {
    ApplyNothing(g);
  }

  lemma TodoStep(actions: map<Coord, Tile>, done: map<Coord, Tile>, todo: set<Coord>, position: Coord)
    requires done.Keys == actions.Keys - todo && position in todo && todo <= actions.Keys
    ensures done[position := actions[position]].Keys == actions.Keys - (todo - {position})
  {
    assert done[position := actions[position]].Keys == done.Keys + {position};
  }

  lemma InputsStep(g: Grid, order: seq<Tile>, actions: map<Coord, Tile>, done: map<Coord, Tile>, inputs: seq<Input>,
                   position: Coord, taps: nat)
    requires IsGrid(g) && HasTapPositions(order) && CommittedSoFar(g, order, actions, done, inputs)
    requires position in actions && position !in done && InBounds(|g|, position)
    requires taps == TapsBetween(order, At(g, position), actions[position])
    ensures CommittedSoFar(g, order, actions, done[position := actions[position]], inputs + [Input(position, actions[position], taps)])
  {
    assert done[position := actions[position]].Keys == done.Keys + {position};
  }

  lemma WeightStep(g: Grid, actions: map<Coord, Tile>, done: map<Coord, Tile>, position: Coord)
    requires IsGrid(g) && WeightSoFar(g, actions, done) && position in actions && position !in done
    requires InBounds(|g|, position)
    ensures WeightSoFar(g, actions, done[position := actions[position]])
  {
    ApplyUpdate(g, done, position, actions[position]);
    if Progressing(g, actions) {
      SetWeight(ApplyActions(g, done), position, actions[position]);
      assert done[position := actions[position]].Keys == done.Keys + {position};
    }
  }

  lemma ReplayStep(g: Grid, order: seq<Tile>, inputs: seq<Input>, current: Grid, input: Input)
    requires IsGrid(g) && HasTapPositions(order) && Replay(g, order, inputs) == Some(current)
    requires InBounds(|g|, input.coord) && input.taps == TapsBetween(order, At(current, input.coord), input.tile)
    ensures Replay(g, order, inputs + [input]) == Some(Set(current, input.coord, input.tile))
  {
    assert (inputs + [input])[..|inputs|] == inputs;
  }

  /** Committing one more action, with the taps counted on the board as it stands, keeps the loop state. */
  lemma CommitStep(g: Grid, order: seq<Tile>, actions: map<Coord, Tile>, done: map<Coord, Tile>,
                   todo: set<Coord>, inputs: seq<Input>, position: Coord, taps: nat)
    requires IsGrid(g) && HasTapPositions(order) && Commitment(g, order, actions, done, todo, inputs)
    requires position in todo
    requires taps == TapsBetween(order, At(ApplyActions(g, done), position), actions[position])
    ensures Commitment(g, order, actions, done[position := actions[position]], todo - {position},
                       inputs + [Input(position, actions[position], taps)])
    ensures ApplyActions(g, done[position := actions[position]]) == Set(ApplyActions(g, done), position, actions[position])
  {
    TodoStep(actions, done, todo, position);
    ReplayStep(g, order, inputs, ApplyActions(g, done), Input(position, actions[position], taps));
    InputsStep(g, order, actions, done, inputs, position, taps);
    WeightStep(g, actions, done, position);
    ApplyUpdate(g, done, position, actions[position]);
  }

  /** With nothing left to do, every action is committed. */
  lemma CommitmentEnd(g: Grid, order: seq<Tile>, actions: map<Coord, Tile>, done: map<Coord, Tile>, inputs: seq<Input>)
    requires IsGrid(g) && HasTapPositions(order) && Commitment(g, order, actions, done, {}, inputs)
    ensures done == actions && Committed(g, order, actions, inputs)
    ensures Replay(g, order, inputs) == Some(ApplyActions(g, actions))
    ensures Progressing(g, actions) ==> GridWeight(ApplyActions(g, actions)) + |actions| <= GridWeight(g)
  {
  }
}
