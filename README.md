# AndroidAutomaton puzzle solvers, modelled in Dafny

AndroidAutomaton plays two logic puzzles on an Android device. It reads the
board from a screenshot. It applies deduction rules until none has anything
left to say, and it taps every deduced tile into its colour.

- **0h n0** (package `q42.ohno`) is a square board of GREY (unknown), RED and
  BLUE tiles. Some BLUE tiles carry a number: how many other BLUE tiles they
  see in an unbroken line in the four directions.
- **0h h1** (package `ohhi`) is a square board of GREY, RED and BLUE tiles.
  Each row and column must hold equal numbers of both colours, no three equal
  tiles in a row, and no two equal lines.

This project models the core of both solvers:

- the board (`BoardState`, `BoardStateOhno`), its coordinates (`BoardCoord`)
  and tiles (`Tile`, with the two screen-colour classifiers);
- the scan helpers of `OhnoRule` and the four 0h n0 rules;
- the three 0h h1 rules;
- the solver loops of `Q42Game` / `Ohno` and of `Ohhi`, with their tap
  arithmetic;
- the `TimeMonitor` stopwatch.

## How the model is built

- **Tiles and coordinates** are datatypes. Both packages declare the same
  enum `GREY, RED, BLUE`, and their coordinate classes have the same fields,
  constructors, `equals`, `hashCode` and `toString`, so one `Tile` and one
  `Coord` serve both. Only the `q42` class adds `move`, `getDirection` and
  `getDistance`, which the `ohhi` rules never call. The two `fromRgb` classifiers stay separate.
- **Board.** `BoardState` is a class over an `array2<Option<Tile>>`, where
  `None` is the Java `null` of a fresh board. `getSize` is the constant field
  `size`, fixed by the constructor. The `q42` and `ohhi` board classes differ
  only in `isWithinBounds`, which only the `q42` one declares, so one class
  serves both. `BoardStateOhno` is a class that owns such a board and a `map`
  of numbers. It uses composition where the Java code uses inheritance.
- **Rules** are methods that read the board object and build an action map
  with the loops of the Java code. Each rule's `ensures` equates its result
  with a specification function over a value snapshot of the board (`Grid`).
  The properties of the rules are lemmas about those functions:
  - what each rule targets;
  - that every proposal makes progress;
  - that every proposal agrees with every solution of the board;
  - idempotence.
- **Solver loops** are methods on the board objects. Their contracts say:
  - the trace of inputs they produce replays, tap by tap, to the final board;
  - each replayed input's tap count cycles the device tile to exactly the
    committed colour;
  - the loop ends because every committed action lowers a measure: twice the
    GREY tiles plus the RED tiles;
  - where it ends, no rule proposes anything;
  - in 0h h1, every solution of the board as read is still a solution of the
    final board.
- **I/O and the clock become parameters.** Screen pixels are the function
  `colour` or `rgba` (one colour per tile). The digit recogniser `readNumber`
  is the function `number`. The clock is the `now` parameter of
  `TimeMonitor.Start` and `Stop`. Device taps are the `Input` records of the
  trace.
- **Exceptions** are `Result` failures:
  - a strict read past the board edge (`ArrayIndexOutOfBoundsException`);
  - a `null` tile;
  - a tile without a tap position;
  - a stopwatch key started twice or stopped while not running;
  - the empty key set and the zero total of `printElapsed`.

Three behaviours of the code are easy to misread; the model follows the code as written:

- **The exclusion rule can turn a RED tile BLUE.** It proposes BLUE for every
  tile in its range that is not already BLUE, so tiles are not only ever
  filled from GREY. `OhnoTheory.ExclusionOnRed` shows that this happens only
  on boards without a solution. The progress measure still drops.
- **The fill rule fires when every number is seen at least, not exactly.** It
  turns every GREY tile RED as soon as no numbered tile sees fewer tiles than
  its number (`FillRule.java:24-30`).
- **The standalone `ohhi` solver is modelled as written.** Its tap count is
  the difference of enum ordinals, plus three. `Taps.OrdinalTapsMatchOrder`
  proves this equals the generic tap-order count for the order GREY, RED,
  BLUE.

`q42/Direction.java` is not part of this model. Its four values are taken in
the order `NORTH, EAST, SOUTH, WEST` of `BoardCoord.move`. No result depends on
that order: the exclusion rule fails when any direction overruns, whichever it
meets first.

## Model

Source paths are relative to the repository root.

| member | source | states |
|---|---|---|
| Tiles.FromOrdinal | src/com/tvkdevelopment/automaton/q42/Tile.java:10-12 | the tile with a given ordinal has that ordinal: the inverse of `ordinal()` |
| Tiles.OrdinalRoundTrip | src/com/tvkdevelopment/automaton/q42/Tile.java:10-12 | `ordinal()` is injective on the three tiles: mapping it back gives the tile |
| Tiles.FromRgbClassifies | src/com/tvkdevelopment/automaton/q42/Tile.java:22-30 | RED exactly when red > 150; BLUE exactly when red <= 150 and blue > 150; GREY otherwise |
| Tiles.FromRgbIgnoresGreen | src/com/tvkdevelopment/automaton/q42/Tile.java:22-30 | the green channel never changes the classification |
| Tiles.FromRgba | src/com/tvkdevelopment/automaton/ohhi/Tile.java:20-28 | entry 0 above 60000 gives RED; else entry 2 above 60000 gives BLUE, else GREY; fails exactly when a read entry is missing, on index 0 for an empty array |
| Tiles.FromRgbaIgnoresGreen | src/com/tvkdevelopment/automaton/ohhi/Tile.java:20-28 | entry 1 of the colour array is never consulted |
| Coords.DirectionsComplete | src/com/tvkdevelopment/automaton/q42/ohno/OhnoRule.java:31 | the direction loops visit every direction |
| Coords.FlipTransposesMoves | src/com/tvkdevelopment/automaton/q42/BoardCoord.java:39-47 | the flipped constructor swaps the axes, so a move along a row of the unflipped board is the same move along a column of the flipped one; unflipped coordinates move unchanged |
| Coords.FlipTwice | src/com/tvkdevelopment/automaton/q42/BoardCoord.java:39-47 | flipping twice gives the original coordinate back |
| Coords.MoveReverse | src/com/tvkdevelopment/automaton/q42/BoardCoord.java:59-72 | `move` by a distance equals `move` the opposite way by its negation, and moving back the same distance returns to the start |
| Coords.MoveAdditive | src/com/tvkdevelopment/automaton/q42/BoardCoord.java:59-72 | moving 0 stays put; two moves along one direction add up |
| Coords.MoveInjective | src/com/tvkdevelopment/automaton/q42/BoardCoord.java:59-72 | distinct distances along one direction reach distinct coordinates |
| Coords.MoveDisjoint | src/com/tvkdevelopment/automaton/q42/BoardCoord.java:59-72 | positive moves in two different directions never meet |
| Coords.GetDirectionNone | src/com/tvkdevelopment/automaton/q42/BoardCoord.java:82-100 | `getDirection` is null exactly for the same coordinate or one on neither of its lines |
| Coords.GetDirectionOfMove | src/com/tvkdevelopment/automaton/q42/BoardCoord.java:82-100 | a positive move in direction d lies in direction d |
| Coords.GetDirectionSome | src/com/tvkdevelopment/automaton/q42/BoardCoord.java:82-112 | a coordinate in direction d is the move in d by its positive Manhattan distance |
| Coords.GetDistanceSpec | src/com/tvkdevelopment/automaton/q42/BoardCoord.java:110-112 | the distance is symmetric, zero only on the same coordinate, and k after a move of k |
| Coords.Wrap32 | src/com/tvkdevelopment/automaton/q42/BoardCoord.java:138-140 | a 32-bit int result, congruent to the exact value modulo 2^32 |
| Coords.EqualsSpec | src/com/tvkdevelopment/automaton/q42/BoardCoord.java:126-140 | `equals` holds exactly for the same x and y, never for null, and equal coordinates hash alike |
| Coords.HashCodeInjectiveOnBoard | src/com/tvkdevelopment/automaton/q42/BoardCoord.java:138-140 | `x + y * 31` tells cells apart when 0 <= x < 31 |
| Coords.ToStringInjective | src/com/tvkdevelopment/automaton/q42/BoardCoord.java:118-120 | distinct coordinates print differently as "(x, y)" |
| Grids.ApplyActions | src/com/tvkdevelopment/automaton/q42/Q42Game.java:107-113 | committing an action map changes exactly its keys, to their tiles |
| Grids.SetWeight | src/com/tvkdevelopment/automaton/q42/Q42Game.java:112 | storing a tile changes the progress measure by the difference of the two tiles' weights |
| Boards.BoardState.constructor | src/com/tvkdevelopment/automaton/q42/BoardState.java:19-22 | a fresh board of the given size with every cell unassigned |
| Boards.BoardState.SetTile | src/com/tvkdevelopment/automaton/q42/BoardState.java:32-34 | the cell holds the tile and no other cell changes; the snapshot is the old one updated at that coordinate |
| Boards.BoardState.GetTile | src/com/tvkdevelopment/automaton/q42/BoardState.java:44-46 | succeeds exactly in bounds with the stored cell; otherwise the index exception, column index first |
| Boards.BoardState.GetTileLenient | src/com/tvkdevelopment/automaton/q42/BoardState.java:59-64 | GREY outside the board, the stored cell inside |
| Boards.BoardState.IsWithinBounds | src/com/tvkdevelopment/automaton/q42/BoardState.java:88-90 | both coordinates lie in [0, size) |
| Boards.BoardState.IsCoordWithinBounds | src/com/tvkdevelopment/automaton/q42/BoardState.java:74-76 | the coordinate overload agrees with the two-int one |
| Boards.BoardState.ToString | src/com/tvkdevelopment/automaton/q42/BoardState.java:103-122 | the text is the board's rendering: rows top to bottom, a two-character token per tile, a line break per row |
| Rendering.Token | src/com/tvkdevelopment/automaton/q42/BoardState.java:103-122 | every tile's token is two characters ending in a space |
| Rendering.Labels | src/com/tvkdevelopment/automaton/q42/ohno/BoardStateOhno.java:64-90 | every number is shown as its decimal text |
| Rendering.RenderLength | src/com/tvkdevelopment/automaton/q42/BoardState.java:103-122 | an n-by-n board renders to n lines of 2n + 1 characters |
| Rendering.RenderLengthGrows | src/com/tvkdevelopment/automaton/q42/BoardState.java:103-122 | a bigger board renders to a longer text |
| Rendering.RowsTextInjective | src/com/tvkdevelopment/automaton/q42/BoardState.java:103-122 | equal texts of the first k rows mean equal tiles in those rows |
| Rendering.RenderInjective | src/com/tvkdevelopment/automaton/q42/BoardState.java:103-122 | the rendering determines the board: different boards print differently |
| Rendering.OhnoRenderPlain | src/com/tvkdevelopment/automaton/q42/ohno/BoardStateOhno.java:64-90 | a 0h n0 board whose numbers sit on no BLUE tile prints exactly like the plain board |
| Rendering.PieceShowsRequirement | src/com/tvkdevelopment/automaton/q42/ohno/BoardStateOhno.java:64-90 | a BLUE tile with a number prints the number and a space, never "B " |
| Text.NatToString | src/com/tvkdevelopment/automaton/q42/ohno/BoardStateOhno.java:64-90 | a natural number prints as a non-empty string of decimal digits |
| Text.IntToString | src/com/tvkdevelopment/automaton/q42/BoardCoord.java:118-120 | `Integer.toString` is non-empty and starts with '-' exactly for negative values |
| Text.IntToStringChars | src/com/tvkdevelopment/automaton/q42/BoardCoord.java:118-120 | the decimal text holds only '-' and digits, so never the ", " separator |
| Text.IntRoundTrip | src/com/tvkdevelopment/automaton/q42/BoardCoord.java:118-120 | parsing the decimal text gives the integer back |
| Text.IntToStringInjective | src/com/tvkdevelopment/automaton/q42/BoardCoord.java:118-120 | distinct integers print differently |
| OhnoBoards.BoardStateOhno.constructor | src/com/tvkdevelopment/automaton/q42/ohno/BoardStateOhno.java:25-27 | a fresh board with every cell unassigned and no number |
| OhnoBoards.BoardStateOhno.SetTileRequirement | src/com/tvkdevelopment/automaton/q42/ohno/BoardStateOhno.java:37-39 | records or replaces the number at the coordinate; the tiles do not change |
| OhnoBoards.BoardStateOhno.GetTileRequirement | src/com/tvkdevelopment/automaton/q42/ohno/BoardStateOhno.java:49-51 | the number at the coordinate, or null exactly when it has none |
| OhnoBoards.BoardStateOhno.GetRequirementTiles | src/com/tvkdevelopment/automaton/q42/ohno/BoardStateOhno.java:56-58 | exactly the coordinates that carry a number |
| OhnoBoards.BoardStateOhno.ToString | src/com/tvkdevelopment/automaton/q42/ohno/BoardStateOhno.java:64-90 | the plain rendering, except that a BLUE tile with a number shows the number |
| OhnoBoards.BoardStateOhno.RowString | src/com/tvkdevelopment/automaton/q42/ohno/BoardStateOhno.java:70-86 | the tokens of one row, left to right |
| OhnoScan.RayLengthSpec | src/com/tvkdevelopment/automaton/q42/ohno/OhnoRule.java:32-39 | a scan's steps 1 .. length stay on the board and the next step leaves it |
| OhnoScan.Ray | src/com/tvkdevelopment/automaton/q42/ohno/OhnoRule.java:32-39 | the tiles met scanning from a tile in a direction, nearest first, up to the edge |
| OhnoScan.BlueRun | src/com/tvkdevelopment/automaton/q42/ohno/OhnoRule.java:32-39 | the length of the leading BLUE run of a scan: all BLUE before it, not BLUE at it |
| OhnoScan.UntilRed | src/com/tvkdevelopment/automaton/q42/ohno/OhnoRule.java:97-110 | the number of tiles before the first RED of a scan |
| OhnoScan.BlueRunUnique | src/com/tvkdevelopment/automaton/q42/ohno/OhnoRule.java:32-39 | the BLUE run length is the only length with its characterisation |
| OhnoScan.BlueRunWithinUntilRed | src/com/tvkdevelopment/automaton/q42/ohno/OhnoRule.java:28-110 | the seen tiles of a direction lie before its first RED |
| OhnoScan.SeenCountSum | src/com/tvkdevelopment/automaton/q42/ohno/OhnoRule.java:28-43 | the seen count is the sum of the four directions' BLUE runs |
| OhnoScan.OpenEnding | src/com/tvkdevelopment/automaton/q42/ohno/OhnoRule.java:61-75 | a direction's open ending is the tile one past its BLUE run |
| OhnoScan.OpenEndingsSpec | src/com/tvkdevelopment/automaton/q42/ohno/OhnoRule.java:56-79 | the open endings are exactly the directions' endings, and each is a GREY tile on the board |
| OhnoScan.OpenEndingsAtMostFour | src/com/tvkdevelopment/automaton/q42/ohno/OhnoRule.java:56-79 | a tile has at most four open endings |
| OhnoScan.ScansExcludeStart | src/com/tvkdevelopment/automaton/q42/ohno/OhnoRule.java:56-114 | neither the open endings nor the potentially seen tiles contain the scanned tile |
| OhnoScan.OpenEndingBeforeRed | src/com/tvkdevelopment/automaton/q42/ohno/OhnoRule.java:56-114 | an open ending lies before the first RED of its direction |
| OhnoScan.PotentialSeenSpec | src/com/tvkdevelopment/automaton/q42/ohno/OhnoRule.java:92-114 | the potentially seen tiles are exactly the tiles before the first RED of each direction, all on the board and not RED |
| OhnoScan.PotentialSeenCovers | src/com/tvkdevelopment/automaton/q42/ohno/OhnoRule.java:92-114 | they include every seen tile and every open ending, so they are at least as many as the seen tiles |
| OhnoScan.PotentialOverCardinality | src/com/tvkdevelopment/automaton/q42/ohno/OhnoRule.java:129-156 | over distinct directions the set has one element per tile before each first RED |
| OhnoScan.PotentialSeenExcludedSize | src/com/tvkdevelopment/automaton/q42/ohno/OhnoRule.java:129-156 | `potentials.size()` is the count of tiles before the first RED in the other three directions |
| OhnoScan.PotentialSeenExcludedDifference | src/com/tvkdevelopment/automaton/q42/ohno/OhnoRule.java:129-156 | skipping a direction removes exactly that direction's tiles from the potentially seen ones |
| OhnoHelpers.CountSeenIn | src/com/tvkdevelopment/automaton/q42/ohno/OhnoRule.java:32-39 | the walk in one direction counts that direction's BLUE run |
| OhnoHelpers.GetAmountOfSeenTiles | src/com/tvkdevelopment/automaton/q42/ohno/OhnoRule.java:28-43 | the seen count of the tile |
| OhnoHelpers.FindOpenEnding | src/com/tvkdevelopment/automaton/q42/ohno/OhnoRule.java:61-75 | the walk in one direction finds that direction's open ending, if any |
| OhnoHelpers.GetOpenEndings | src/com/tvkdevelopment/automaton/q42/ohno/OhnoRule.java:56-79 | the set of open endings of the tile |
| OhnoHelpers.CollectPotentialIn | src/com/tvkdevelopment/automaton/q42/ohno/OhnoRule.java:97-110 | the walk in one direction collects the tiles before its first RED |
| OhnoHelpers.GetPotentialSeen | src/com/tvkdevelopment/automaton/q42/ohno/OhnoRule.java:92-114 | the potentially seen tiles of the tile |
| OhnoHelpers.GetPotentialSeenExcluded | src/com/tvkdevelopment/automaton/q42/ohno/OhnoRule.java:129-156 | the potentially seen tiles outside one direction |
| OhnoRules.PutAll | src/com/tvkdevelopment/automaton/q42/ohno/CompletedRule.java:26-28 | putting one tile on every target adds the uniform map of the targets |
| OhnoRules.CompletedAtTile | src/com/tvkdevelopment/automaton/q42/ohno/CompletedRule.java:25-29 | one numbered tile adds its completed-rule targets as RED |
| OhnoRules.Completed | src/com/tvkdevelopment/automaton/q42/ohno/CompletedRule.java:19-33 | the actions are RED on exactly the completed-rule targets |
| OhnoRules.CountPotential | src/com/tvkdevelopment/automaton/q42/ohno/OverflowRule.java:32-41 | one for the open ending plus the BLUE tiles right behind it |
| OhnoRules.Overflowing | src/com/tvkdevelopment/automaton/q42/ohno/OverflowRule.java:31-46 | the test holds exactly when the seen count plus the ending's potential exceeds the number |
| OhnoRules.OverflowAtTile | src/com/tvkdevelopment/automaton/q42/ohno/OverflowRule.java:24-49 | one numbered tile adds its overflow targets as RED |
| OhnoRules.Overflow | src/com/tvkdevelopment/automaton/q42/ohno/OverflowRule.java:20-52 | the actions are RED on exactly the overflow targets |
| OhnoRules.ExcludeStep | src/com/tvkdevelopment/automaton/q42/ohno/ExclusionRule.java:36-39 | one distance: fails exactly one step past the edge, else adds the tile as BLUE unless it is BLUE |
| OhnoRules.ExcludeSteps | src/com/tvkdevelopment/automaton/q42/ohno/ExclusionRule.java:35-40 | fails exactly when the shortfall reaches past the edge, else adds the non-BLUE tiles at distances 1 .. shortfall as BLUE |
| OhnoRules.ExclusionInDirection | src/com/tvkdevelopment/automaton/q42/ohno/ExclusionRule.java:31-40 | one direction: fails exactly when its shortfall overruns the board, else adds its steps as BLUE |
| OhnoRules.ExclusionInDirections | src/com/tvkdevelopment/automaton/q42/ohno/ExclusionRule.java:30-41 | fails exactly when some direction overruns, else adds the tile's exclusion targets |
| OhnoRules.ExclusionAtTile | src/com/tvkdevelopment/automaton/q42/ohno/ExclusionRule.java:27-42 | an unmet numbered tile as above; a met one adds nothing |
| OhnoRules.Exclusion | src/com/tvkdevelopment/automaton/q42/ohno/ExclusionRule.java:22-46 | fails exactly when some strict read runs off the board, else BLUE on exactly the exclusion targets |
| OhnoRules.RequirementsMet | src/com/tvkdevelopment/automaton/q42/ohno/FillRule.java:24-30 | true exactly when no numbered tile sees fewer tiles than its number |
| OhnoRules.Fill | src/com/tvkdevelopment/automaton/q42/ohno/FillRule.java:19-42 | the actions are RED on exactly the fill targets |
| OhnoSpec.OpenEndingDirection | src/com/tvkdevelopment/automaton/q42/ohno/OverflowRule.java:31-35 | the direction and distance the rule recovers from an open ending are its own direction and one past the run |
| OhnoSpec.OverflowAmongAll | src/com/tvkdevelopment/automaton/q42/ohno/OverflowRule.java:28-47 | over all open endings the loop finds the tile's overflow targets; a met number has none |
| OhnoSpec.CompletedTargetsSpec | src/com/tvkdevelopment/automaton/q42/ohno/CompletedRule.java:23-30 | a target is exactly an open ending of a numbered tile that sees exactly its number; it is GREY |
| OhnoSpec.OverflowsByDirection | src/com/tvkdevelopment/automaton/q42/ohno/OverflowRule.java:32-46 | the ending in direction d overflows exactly when one more BLUE tile there, with the run behind it, overshoots |
| OhnoSpec.OverflowTargetsSpec | src/com/tvkdevelopment/automaton/q42/ohno/OverflowRule.java:24-49 | a target is exactly a GREY open ending of an unmet numbered tile whose count plus the ending's potential exceeds its number |
| OhnoSpec.ExclusionTargetsSpec | src/com/tvkdevelopment/automaton/q42/ohno/ExclusionRule.java:26-43 | every target is a candidate, and every candidate is a target when no read overruns; no target is BLUE |
| OhnoSpec.ExclusionFailsSpec | src/com/tvkdevelopment/automaton/q42/ohno/ExclusionRule.java:35-37 | the rule fails if a numbered tile overruns and does not fail if none does |
| OhnoSpec.AnyOverrunsAll | src/com/tvkdevelopment/automaton/q42/ohno/ExclusionRule.java:30-41 | over the four directions the overrun test asks whether any direction overruns |
| OhnoSpec.FillTargetsSpec | src/com/tvkdevelopment/automaton/q42/ohno/FillRule.java:23-39 | no targets while a number is unmet; otherwise exactly the GREY tiles |
| OhnoSpec.GreyBeforeAll | src/com/tvkdevelopment/automaton/q42/ohno/FillRule.java:33-39 | after the last row the fill loop has seen every GREY tile |
| OhnoSpec.RedRulesProgress | src/com/tvkdevelopment/automaton/q42/ohno/CompletedRule.java:26-28 | the completed, overflow and fill rules only turn GREY tiles RED |
| OhnoSpec.ExclusionProgresses | src/com/tvkdevelopment/automaton/q42/ohno/ExclusionRule.java:37-38 | the exclusion rule only turns GREY or RED tiles BLUE |
| OhnoTheory.SeenGrows | src/com/tvkdevelopment/automaton/q42/ohno/OhnoRule.java:28-43 | filling in unknown tiles never lowers a direction's seen count |
| OhnoTheory.UntilRedShrinks | src/com/tvkdevelopment/automaton/q42/ohno/OhnoRule.java:92-114 | filling in unknown tiles never moves the first RED further away |
| OhnoTheory.EndingTurnsBlue | src/com/tvkdevelopment/automaton/q42/ohno/OverflowRule.java:32-44 | an open ending that is BLUE in a refinement adds at least its potential to the seen count |
| OhnoTheory.CompletedSound | src/com/tvkdevelopment/automaton/q42/ohno/CompletedRule.java:23-30 | every completed-rule target is RED in every solution |
| OhnoTheory.OverflowSound | src/com/tvkdevelopment/automaton/q42/ohno/OverflowRule.java:24-49 | every overflow target is RED in every solution |
| OhnoTheory.SeenOutside | src/com/tvkdevelopment/automaton/q42/ohno/ExclusionRule.java:31-32 | a refinement sees no more outside a direction than the potential tiles there |
| OhnoTheory.ExclusionSound | src/com/tvkdevelopment/automaton/q42/ohno/ExclusionRule.java:32-40 | in every solution the tiles at distance 1 .. shortfall exist and are BLUE |
| OhnoTheory.ExclusionTargetSound | src/com/tvkdevelopment/automaton/q42/ohno/ExclusionRule.java:22-46 | every exclusion target is BLUE in every solution |
| OhnoTheory.ExclusionOnRed | src/com/tvkdevelopment/automaton/q42/ohno/ExclusionRule.java:37-38 | an exclusion target that is already RED means the board has no solution |
| OhnoTheory.ExclusionFailureUnsolvable | src/com/tvkdevelopment/automaton/q42/ohno/ExclusionRule.java:35-37 | when a read runs off the board, the board has no solution |
| OhnoTheory.DeductionsKeepSolutions | src/com/tvkdevelopment/automaton/q42/ohno/Ohno.java:29-30 | on a solvable board exclusion does not fail, and committing exclusion, overflow or completed actions keeps every solution |
| OhnoTheory.RedOverGreyKeepsSeen | src/com/tvkdevelopment/automaton/q42/ohno/CompletedRule.java:26-28 | turning GREY tiles RED changes no seen count |
| OhnoTheory.CompletedIdempotent | src/com/tvkdevelopment/automaton/q42/ohno/CompletedRule.java:19-33 | once its actions are committed, the completed rule proposes nothing |
| OhnoTheory.FillIdempotent | src/com/tvkdevelopment/automaton/q42/ohno/FillRule.java:19-42 | once its actions are committed, the fill rule proposes nothing |
| OhnoTheory.FillSolves | src/com/tvkdevelopment/automaton/q42/ohno/FillRule.java:19-42 | when every number is met exactly, committing the fill actions gives a solution |
| OhhiSpec.LinePosition | src/com/tvkdevelopment/automaton/ohhi/BoardCoord.java:39 | the line and position of a flipped coordinate are the ones it was built from |
| OhhiSpec.GreyInSpec | src/com/tvkdevelopment/automaton/ohhi/rules/EvenColorTilesRule.java:52-57 | a line's GREY tiles are the board's GREY tiles on that line |
| OhhiSpec.LineActionsSpec | src/com/tvkdevelopment/automaton/ohhi/rules/EvenColorTilesRule.java:43-59 | a line's proposals: each GREY tile of the line gets the forced colour, if there is one |
| OhhiSpec.EvenColorActionsSpec | src/com/tvkdevelopment/automaton/ohhi/rules/EvenColorTilesRule.java:22-66 | exactly the GREY tiles whose row or column forces a colour; the column's colour is kept |
| OhhiSpec.EvenColorExample | src/com/tvkdevelopment/automaton/ohhi/rules/EvenColorTilesRule.java:49-57 | a row of four RED, GREY, RED, GREY makes both GREY tiles BLUE |
| OhhiSpec.CellMarkSpec | src/com/tvkdevelopment/automaton/ohhi/rules/MaxTwoConnectedRule.java:33-43 | a flanked tile gets RED when two BLUEs line up with it, else BLUE when two REDs do |
| OhhiSpec.MaxTwoActionsSpec | src/com/tvkdevelopment/automaton/ohhi/rules/MaxTwoConnectedRule.java:22-48 | exactly the GREY tiles flanked by two tiles of one colour, proposed the other colour; RED wins a tie |
| OhhiSpec.MaxTwoExample | src/com/tvkdevelopment/automaton/ohhi/rules/MaxTwoConnectedRule.java:35 | two BLUE tiles at the start of the top row make the GREY tile after them RED |
| OhhiSpec.LinesWithGreySpec | src/com/tvkdevelopment/automaton/ohhi/rules/NoEvenLinesRule.java:32-45 | the collected lines are exactly those with the given number of GREY tiles |
| OhhiSpec.LinesWithGreySorted | src/com/tvkdevelopment/automaton/ohhi/rules/NoEvenLinesRule.java:32-45 | the lines are collected in increasing order |
| OhhiSpec.GreyPositionsSpec | src/com/tvkdevelopment/automaton/ohhi/rules/NoEvenLinesRule.java:51-56 | the collected positions are exactly the GREY positions of the line |
| OhhiSpec.LastMatch | src/com/tvkdevelopment/automaton/ohhi/rules/NoEvenLinesRule.java:58-75 | the last filled line the pending line matches, or none matches |
| OhhiSpec.ComplementSpec | src/com/tvkdevelopment/automaton/ohhi/rules/NoEvenLinesRule.java:70-74 | the proposals cover exactly the listed positions, each with the filled line's other colour |
| OhhiSpec.PendingActionsSpec | src/com/tvkdevelopment/automaton/ohhi/rules/NoEvenLinesRule.java:48-76 | a pending line's proposals: its GREY tiles, opposite to the last filled line it matches |
| OhhiSpec.NoEvenActionsSpec | src/com/tvkdevelopment/automaton/ohhi/rules/NoEvenLinesRule.java:21-82 | exactly the GREY tiles of a two-GREY line matching a filled line, with the opposite colour; the column's proposal is kept |
| OhhiSpec.LastMatchLargest | src/com/tvkdevelopment/automaton/ohhi/rules/NoEvenLinesRule.java:59-75 | among increasing filled lines, the last match is the largest |
| OhhiSpec.MatchForSpec | src/com/tvkdevelopment/automaton/ohhi/rules/NoEvenLinesRule.java:58-75 | the line completed from is a filled matching line, the largest; with none, no filled line matches |
| OhhiSpec.NoEvenExample | src/com/tvkdevelopment/automaton/ohhi/rules/NoEvenLinesRule.java:69-74 | a pending row RED, GREY, GREY, BLUE matching RED, BLUE, RED, BLUE is completed RED, RED, BLUE, BLUE |
| OhhiRules.CountLine | src/com/tvkdevelopment/automaton/ohhi/rules/EvenColorTilesRule.java:32-41 | the count map holds every tile's number of occurrences on the line |
| OhhiRules.FillLine | src/com/tvkdevelopment/automaton/ohhi/rules/EvenColorTilesRule.java:52-57 | every GREY tile of the line is proposed as the colour |
| OhhiRules.EvenColorLine | src/com/tvkdevelopment/automaton/ohhi/rules/EvenColorTilesRule.java:31-59 | one line adds that line's proposals |
| OhhiRules.EvenColorTiles | src/com/tvkdevelopment/automaton/ohhi/rules/EvenColorTilesRule.java:22-66 | the actions are the rule's specified proposals |
| OhhiRules.FlankedFromReads | src/com/tvkdevelopment/automaton/ohhi/rules/MaxTwoConnectedRule.java:35-40 | the six patterns on the lenient reads say the tile is flanked |
| OhhiRules.MaxTwoAtTile | src/com/tvkdevelopment/automaton/ohhi/rules/MaxTwoConnectedRule.java:33-43 | one GREY tile adds its mark, if flanked |
| OhhiRules.MaxTwoConnected | src/com/tvkdevelopment/automaton/ohhi/rules/MaxTwoConnectedRule.java:22-48 | the actions are the rule's specified proposals |
| OhhiRules.CountGrey | src/com/tvkdevelopment/automaton/ohhi/rules/NoEvenLinesRule.java:33-38 | the number of GREY tiles on the line |
| OhhiRules.CollectLines | src/com/tvkdevelopment/automaton/ohhi/rules/NoEvenLinesRule.java:28-45 | the filled lines and the two-GREY lines, in order |
| OhhiRules.CollectGrey | src/com/tvkdevelopment/automaton/ohhi/rules/NoEvenLinesRule.java:51-56 | the GREY positions of the pending line, in order |
| OhhiRules.LinesMatch | src/com/tvkdevelopment/automaton/ohhi/rules/NoEvenLinesRule.java:61-67 | the lines match exactly when every known tile of the pending line equals the filled line's |
| OhhiRules.PutOpposites | src/com/tvkdevelopment/automaton/ohhi/rules/NoEvenLinesRule.java:70-74 | adds each GREY position with the filled line's other colour |
| OhhiRules.PendingLine | src/com/tvkdevelopment/automaton/ohhi/rules/NoEvenLinesRule.java:48-76 | one pending line adds that line's proposals |
| OhhiRules.NoEvenLines | src/com/tvkdevelopment/automaton/ohhi/rules/NoEvenLinesRule.java:21-82 | the actions are the rule's specified proposals |
| OhhiTheory.NoGreyLeft | src/com/tvkdevelopment/automaton/ohhi/rules/NoEvenLinesRule.java:40-41 | a line that counts no GREY tile has none |
| OhhiTheory.TwoGrey | src/com/tvkdevelopment/automaton/ohhi/rules/NoEvenLinesRule.java:42-43 | a line counting two GREY tiles has exactly one more besides a given one |
| OhhiTheory.LineFillSound | src/com/tvkdevelopment/automaton/ohhi/rules/EvenColorTilesRule.java:49-57 | the colour a line forces is the colour of those tiles in every solution |
| OhhiTheory.EvenColorSound | src/com/tvkdevelopment/automaton/ohhi/rules/EvenColorTilesRule.java:22-66 | every proposal of the rule agrees with every solution |
| OhhiTheory.FlankedTriple | src/com/tvkdevelopment/automaton/ohhi/rules/MaxTwoConnectedRule.java:35-41 | a tile flanked by two tiles of its own colour makes three in a row |
| OhhiTheory.MaxTwoSound | src/com/tvkdevelopment/automaton/ohhi/rules/MaxTwoConnectedRule.java:22-48 | every proposal of the rule agrees with every solution |
| OhhiTheory.AgreeAtOneAgreeAll | src/com/tvkdevelopment/automaton/ohhi/rules/NoEvenLinesRule.java:69-74 | in a finished board, balanced lines agreeing outside two positions and at one of them are equal |
| OhhiTheory.PendingSound | src/com/tvkdevelopment/automaton/ohhi/rules/NoEvenLinesRule.java:69-74 | each GREY tile of a matching pending line has the filled line's other colour in every solution |
| OhhiTheory.NoEvenSound | src/com/tvkdevelopment/automaton/ohhi/rules/NoEvenLinesRule.java:21-82 | every proposal of the rule agrees with every solution |
| OhhiTheory.AgreeingActionsKeepSolution | src/com/tvkdevelopment/automaton/ohhi/Ohhi.java:105-111 | committing proposals that agree with a solution keeps it a solution |
| Taps.OhnoTapPositions | src/com/tvkdevelopment/automaton/q42/ohno/Ohno.java:34 | 0h n0's tap order GREY, BLUE, RED holds every tile |
| Taps.FirstIndex | src/com/tvkdevelopment/automaton/q42/Q42Game.java:179-187 | the first position of a tile in an order, or none exactly when it is absent |
| Taps.TapPosition | src/com/tvkdevelopment/automaton/q42/Q42Game.java:179-187 | succeeds exactly for a tile in the order, with its first position; otherwise the "no tap position" error |
| Taps.NumTaps | src/com/tvkdevelopment/automaton/q42/Q42Game.java:156-159 | the difference plus the order's length when negative is the difference modulo the length; zero exactly when equal |
| Taps.TapsReachTarget | src/com/tvkdevelopment/automaton/q42/Q42Game.java:156-165 | that many taps cycle the current position to the target, and no fewer do |
| Taps.TapsBetween | src/com/tvkdevelopment/automaton/q42/Q42Game.java:156-159 | the count is below the order's length, and zero when the tile stays |
| Taps.TapsBetweenReachTarget | src/com/tvkdevelopment/automaton/q42/Q42Game.java:156-165 | tapping that many times from the current tile shows the target |
| Taps.OrdinalTaps | src/com/tvkdevelopment/automaton/ohhi/Ohhi.java:147-150 | the ordinal difference plus three is below three and cycles the current ordinal to the target |
| Taps.OrdinalTapsMatchOrder | src/com/tvkdevelopment/automaton/ohhi/Ohhi.java:147-150 | the ordinal count equals the tap-order count for the order GREY, RED, BLUE |
| Taps.OhnoTapExamples | src/com/tvkdevelopment/automaton/q42/ohno/Ohno.java:34 | GREY to BLUE is one tap, GREY to RED two, RED to BLUE two |
| Traces.ReplayAppend | src/com/tvkdevelopment/automaton/q42/Q42Game.java:93-120 | replaying two traces in turn is replaying their concatenation |
| Traces.PlayedAppend | src/com/tvkdevelopment/automaton/q42/Q42Game.java:93-120 | two played traces, one after the other, are one played trace |
| Traces.ReplayedTapsReachTarget | src/com/tvkdevelopment/automaton/q42/Q42Game.java:152-169 | every replayed input's taps cycle its tile to the input's colour |
| Traces.CommitStep | src/com/tvkdevelopment/automaton/q42/Q42Game.java:107-113 | committing one more action with its taps counted on the current board keeps the loop state |
| Traces.CommitmentEnd | src/com/tvkdevelopment/automaton/q42/Q42Game.java:107-113 | with nothing left, every action is committed, the trace replays to the committed board, and the measure dropped by the number of actions |
| Q42Game.SetTile | src/com/tvkdevelopment/automaton/q42/Q42Game.java:152-169 | strict read, target's tap position first, then current's; on success the taps between them and the tile stored; on failure the board unchanged |
| Q42Game.CommitTile | src/com/tvkdevelopment/automaton/q42/Q42Game.java:152-169 | on a filled board with a complete tap order: the tile stored, with the taps between old and new tile |
| Q42Game.CommitActions | src/com/tvkdevelopment/automaton/q42/Q42Game.java:107-113 | the board is the old one with the actions committed; the trace replays to it; progress lowers the measure |
| Q42Game.ApplyRule | src/com/tvkdevelopment/automaton/q42/Q42Game.java:102 | fails exactly when the rule fails; otherwise exactly the rule's proposals |
| Q42Game.ProposalsProgress | src/com/tvkdevelopment/automaton/q42/ohno/Ohno.java:29-30 | every rule proposes only board tiles, each with progress |
| Q42Game.ProposalsKeepSolutions | src/com/tvkdevelopment/automaton/q42/ohno/Ohno.java:29-30 | exclusion, overflow and completed never fail on a solvable board and keep every solution |
| Q42Game.FillFinishes | src/com/tvkdevelopment/automaton/q42/ohno/FillRule.java:19-42 | with every number met exactly, the fill rule leaves no GREY tile and gives a solution |
| Q42Game.StableOutcome | src/com/tvkdevelopment/automaton/q42/Q42Game.java:93-120 | where the solver stops, no tile is unknown or some number is unmet; with every number met exactly, the board is solved |
| Q42Game.Round | src/com/tvkdevelopment/automaton/q42/Q42Game.java:97-115 | a failing rule changes nothing; otherwise a played batch, empty exactly when the rule is settled |
| Q42Game.RunRule | src/com/tvkdevelopment/automaton/q42/Q42Game.java:97-115 | rounds until the rule proposes nothing; the trace is played from the old board to the new |
| Q42Game.Pass | src/com/tvkdevelopment/automaton/q42/Q42Game.java:96-116 | every rule run in turn; a pass committing nothing leaves the board stable |
| Q42Game.Solve | src/com/tvkdevelopment/automaton/q42/Q42Game.java:88-120 | ends stable with a played trace, or fails exactly as the exclusion rule's off-board read |
| Q42Game.ReadGrid | src/com/tvkdevelopment/automaton/q42/Q42Game.java:76-80 | every tile is the classification of its pixel colour |
| Q42Game.ReadBoard | src/com/tvkdevelopment/automaton/q42/Q42Game.java:74-80 | a fresh filled board without numbers whose every tile is its pixel colour's classification |
| Q42Game.AttachAll | src/com/tvkdevelopment/automaton/q42/ohno/Ohno.java:236-243 | after the loop, the numbered tiles are the old ones plus the BLUE tiles, which carry the read number |
| Q42Game.FinaliseBoard | src/com/tvkdevelopment/automaton/q42/ohno/Ohno.java:233-245 | every BLUE tile gets the number read on it; other numbers stay; tiles do not change |
| Q42Game.PlayGame | src/com/tvkdevelopment/automaton/q42/Q42Game.java:61-128 | numbers exactly on the BLUE tiles read; on success a stable board reached by a played trace from the board read; otherwise the exclusion read fails |
| OhhiGame.SetTile | src/com/tvkdevelopment/automaton/ohhi/Ohhi.java:143-160 | strict read; an unassigned cell fails; on success the ordinal tap count and the tile stored; on failure nothing changes |
| OhhiGame.CommitTile | src/com/tvkdevelopment/automaton/ohhi/Ohhi.java:143-160 | on a filled board: the tile stored, with the tap-order count for GREY, RED, BLUE |
| OhhiGame.CommitActions | src/com/tvkdevelopment/automaton/ohhi/Ohhi.java:105-111 | the board is the old one with the actions committed; the trace replays to it; progress lowers the measure |
| OhhiGame.ApplyRule | src/com/tvkdevelopment/automaton/ohhi/Ohhi.java:102 | exactly the rule's proposals |
| OhhiGame.ProposalsProgress | src/com/tvkdevelopment/automaton/ohhi/Ohhi.java:36 | every rule proposes only GREY board tiles |
| OhhiGame.ProposalsKeepSolutions | src/com/tvkdevelopment/automaton/ohhi/Ohhi.java:36 | every rule's proposals agree with every solution, so committing them keeps it |
| OhhiGame.CompleteIsSolution | src/com/tvkdevelopment/automaton/ohhi/Ohhi.java:94-116 | a board with no GREY tile that keeps a solution is that solution |
| OhhiGame.ProposalsKeepAll | src/com/tvkdevelopment/automaton/ohhi/Ohhi.java:102-111 | committing a rule's proposals keeps every solution of the board |
| OhhiGame.SoundPlayAppend | src/com/tvkdevelopment/automaton/ohhi/Ohhi.java:94-116 | two sound plays in turn are one sound play |
| OhhiGame.Round | src/com/tvkdevelopment/automaton/ohhi/Ohhi.java:98-112 | settled exactly when the rule proposes nothing, and then nothing changes; otherwise a non-empty played batch keeping every solution |
| OhhiGame.RunRule | src/com/tvkdevelopment/automaton/ohhi/Ohhi.java:98-112 | rounds until the rule proposes nothing; a sound play from the old board |
| OhhiGame.Pass | src/com/tvkdevelopment/automaton/ohhi/Ohhi.java:97-113 | every rule run in turn, a sound play; a pass committing nothing leaves the board stable |
| OhhiGame.Solve | src/com/tvkdevelopment/automaton/ohhi/Ohhi.java:92-116 | ends with no rule proposing anything, reached by a sound play |
| OhhiGame.ReadGrid | src/com/tvkdevelopment/automaton/ohhi/Ohhi.java:84-88 | every tile is the classification of its colour array |
| OhhiGame.ReadBoard | src/com/tvkdevelopment/automaton/ohhi/Ohhi.java:74-88 | succeeds exactly when every colour array classifies, with that board; a failure is the classification error of the first unreadable tile in row-by-row order |
| OhhiGame.PlayGame | src/com/tvkdevelopment/automaton/ohhi/Ohhi.java:63-119 | succeeds exactly when the board reads, otherwise reports the first unreadable tile in row-by-row order; then stable, reached by a trace that replays from the board read and keeps all its solutions |
| Timing.JavaDiv | src/com/tvkdevelopment/automaton/TimeMonitor.java:95 | long division truncates toward zero: Euclidean for non-negative operands, negated for a non-positive dividend |
| Timing.SumOverUpdate | src/com/tvkdevelopment/automaton/TimeMonitor.java:60 | changing one key's time changes the total by the difference, if the key is registered |
| Timing.TermAtMostSum | src/com/tvkdevelopment/automaton/TimeMonitor.java:83 | with no negative time, every key's time is at most the total |
| Timing.PercentBounded | src/com/tvkdevelopment/automaton/TimeMonitor.java:95 | a share of a positive total lies between 0 and 100 percent |
| Timing.TimeMonitor.constructor | src/com/tvkdevelopment/automaton/TimeMonitor.java:14-18 | nothing registered, running or stopped |
| Timing.TimeMonitor.Register | src/com/tvkdevelopment/automaton/TimeMonitor.java:26-28 | a new key goes at the end of the order; a known key changes nothing; the total stays |
| Timing.TimeMonitor.Start | src/com/tvkdevelopment/automaton/TimeMonitor.java:36-42 | fails exactly for a running key, changing nothing; otherwise registers it and starts it at now |
| Timing.TimeMonitor.Stop | src/com/tvkdevelopment/automaton/TimeMonitor.java:52-63 | fails exactly for a key not running; otherwise returns now minus its start, adds that to its time and the total, and stops it |
| Timing.TimeMonitor.Report | src/com/tvkdevelopment/automaton/TimeMonitor.java:80-101 | fails exactly for no keys or a zero total; otherwise one row per key in order with its time and its share of the total, truncated like Java's long division |
| Timing.TimeMonitor.ReportPercents | src/com/tvkdevelopment/automaton/TimeMonitor.java:95 | with no negative lap, every printed percentage lies between 0 and 100 |

## Left out

- Screen capture, pixel reading, digit recognition (`readNumber`), the start button, `wait` and device taps are I/O. They appear as the `colour`, `rgba` and `number` parameters and as the `Input` records of the trace.
- `getTileCoord`, `ScreenCoord` and the pixel offsets are screen geometry without solver logic. `Ohhi.playGame` indexes its colour arrays as `y * SIZE + x`; the model gives one colour array per tile instead.
- Console output (`System.out.println` of boards, rules and actions) is not modelled. The board's `toString` is modelled because it is a pure function of the board.
- Boards.BoardState.ToString: requires every cell to be assigned. The Java method throws a `NullPointerException` on an unassigned cell; that path is not modelled.
- OhnoBoards.BoardStateOhno.ToString: requires every cell to be assigned, for the same reason.
- The iteration order of `HashMap.keySet()` and `HashSet` is not fixed in Java. `CommitActions` commits the actions in an order it chooses, and its contract holds for every order. The rules' results are sets and maps, so their order does not matter.
- `Rule` and `OhnoRule` are interfaces. The model dispatches on the datatypes `OhnoRule` and `OhhiRule` instead of virtual calls.
- Long inline loops of the Java methods are split into helper methods: one direction of a scan, one numbered tile of a rule, one line of a pass. Each helper's contract states what its part of the loop computes.
- Java `int` is 32 bits. Board sizes and counts here are tiny, so overflow is modelled only in `hashCode` (`Coords.Wrap32`).
- The `REPEAT` loop of `Ohhi.main`, and the fixed sizes `SIZE = 12` (0h h1) and `SIZE = 9` (0h n0), are left out. The size is a parameter.
- Q42Game.PlayGame: does not model the `TimeMonitor` calls around its phases, nor `printElapsed` at the end. The stopwatch is modelled on its own in `Timing`.
- Q42Game.RunRule: on a failure it returns only the error. The inputs already tapped in earlier rounds are not reported, though they stay committed on the board.
- Q42Game.FillFinishes: states soundness of the fill rule only when every number is met exactly. The Java rule also fires when some number is exceeded; such a board has no solution.
- Timing.TimeMonitor.Report: returns the rows of `printElapsed` without its column padding. `printElapsed` throws when an elapsed time prints as exactly 7 characters or a percentage as exactly 4 (the format string becomes `%0s`); that failure is not modelled. The `(int)` cast of the percentage is the identity for shares between 0 and 100, and `ReportPercents` proves that range.
- The clock `System.currentTimeMillis()` is the `now` parameter of `Start` and `Stop`. The three static collections of `TimeMonitor` are the fields of one object.
- The generalised 0h h1 variant `q42/ohhi/Ohhi.java` is not part of this model. Its solving loop is the one of `Q42Game`, which the model states for any tap order.
