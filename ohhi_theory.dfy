/**
 * Why the 0h h1 rules are right: every tile a rule proposes has that
 * colour in every solution of the board, so committing a rule's proposals
 * keeps every solution a solution.
 *
 * A solution of a snapshot `g` is a finished board (no GREY tile) that keeps
 * every tile already known in `g`, holds as many RED as BLUE tiles in every
 * row and column, has no three tiles of one colour next to each other in a
 * row or column, and has no two equal rows and no two equal columns.
 */
module OhhiTheory {
  import opened Tiles
  import opened Coords
  import opened Grids
  import opened OhhiSpec

  /** Every row and every column of `s` holds half RED and half BLUE tiles. */
  ghost predicate Balanced(s: Grid)
    requires IsGrid(s)
  {
    forall line, flipped :: 0 <= line < |s| ==>
      Count(s, line, flipped, RED) == |s| / 2 && Count(s, line, flipped, BLUE) == |s| / 2
  }

  /** Positions x, x + 1 and x + 2 of the line hold the same tile. */
  predicate Triple(s: Grid, line: int, flipped: bool, x: int)
    requires IsGrid(s) && 0 <= line < |s| && 0 <= x && x + 2 < |s|
  {
    LineTile(s, line, flipped, x) == LineTile(s, line, flipped, x + 1) &&
    LineTile(s, line, flipped, x + 1) == LineTile(s, line, flipped, x + 2)
  }

  /** No row and no column of `s` has three equal tiles next to each other. */
  ghost predicate NoThree(s: Grid)
    requires IsGrid(s)
  {
    forall line, flipped, x :: 0 <= line < |s| && 0 <= x && x + 2 < |s| ==> !Triple(s, line, flipped, x)
  }

  /** Lines `a` and `b` of `s` hold the same tiles. */
  ghost predicate SameLine(s: Grid, a: int, b: int, flipped: bool)
    requires IsGrid(s) && 0 <= a < |s| && 0 <= b < |s|
  {
    forall x :: 0 <= x < |s| ==> LineTile(s, a, flipped, x) == LineTile(s, b, flipped, x)
  }

  /** No two rows and no two columns of `s` are equal. */
  ghost predicate DistinctLines(s: Grid)
    requires IsGrid(s)
  {
    forall a, b, flipped :: 0 <= a < |s| && 0 <= b < |s| && a != b ==> !SameLine(s, a, b, flipped)
  }

  /** `s` is a solution of `g`. */
  ghost predicate Solves(g: Grid, s: Grid)
    requires IsGrid(g)
  {
    IsGrid(s) && |s| == |g| && Refines(g, s) && Complete(s) && Balanced(s) && NoThree(s) && DistinctLines(s)
  }

  // ---------------------------------------------------------------------
  // Counting along a line

  /** The positions among the first `k` of the line that hold `t`. */
  function Where(g: Grid, line: int, flipped: bool, t: Tile, k: nat): set<int>
    requires IsGrid(g) && 0 <= line < |g| && k <= |g|
  {
    set x | 0 <= x < k && LineTile(g, line, flipped, x) == t
  }

  /** The count of `t` is the number of positions holding it. */
  lemma {:induction false} CountIsSize(g: Grid, line: int, flipped: bool, t: Tile, k: nat)
    requires IsGrid(g) && 0 <= line < |g| && k <= |g|
    ensures CountUpTo(g, line, flipped, t, k) == |Where(g, line, flipped, t, k)|
  {
    if k > 0 {
      CountIsSize(g, line, flipped, t, k - 1);
      WhereStep(g, line, flipped, t, k);
    }
  }

  lemma WhereStep(g: Grid, line: int, flipped: bool, t: Tile, k: nat)
    requires IsGrid(g) && 0 <= line < |g| && 0 < k <= |g|
    ensures k - 1 !in Where(g, line, flipped, t, k - 1)
    ensures Where(g, line, flipped, t, k) ==
      Where(g, line, flipped, t, k - 1) + if LineTile(g, line, flipped, k - 1) == t then {k - 1} else {}
  {
  }

  /** A line that counts no GREY tile has none. */
  lemma NoGreyLeft(g: Grid, line: int, flipped: bool)
    requires IsGrid(g) && 0 <= line < |g| && Count(g, line, flipped, GREY) == 0
    ensures forall x :: 0 <= x < |g| ==> LineTile(g, line, flipped, x) != GREY
  {
    CountIsSize(g, line, flipped, GREY, |g|);
    var greys := Where(g, line, flipped, GREY, |g|);
    assert greys == {};
    forall x | 0 <= x < |g|
      ensures LineTile(g, line, flipped, x) != GREY
    {
      assert x !in greys;
    }
  }

  /** The GREY tiles of the line are exactly those at the distinct positions `x0` and `x1`. */
  predicate GreyPair(g: Grid, line: int, flipped: bool, x0: int, x1: int)
    requires IsGrid(g) && 0 <= line < |g|
  {
    0 <= x0 < |g| && 0 <= x1 < |g| && x0 != x1 &&
    forall x :: 0 <= x < |g| ==> (LineTile(g, line, flipped, x) == GREY <==> x == x0 || x == x1)
  }

  /** A line that counts two GREY tiles, one of them at `x0`, has exactly one more. */
  lemma TwoGrey(g: Grid, line: int, flipped: bool, x0: int)
    requires IsGrid(g) && 0 <= line < |g| && Count(g, line, flipped, GREY) == 2
    requires 0 <= x0 < |g| && LineTile(g, line, flipped, x0) == GREY
    ensures exists x1 :: GreyPair(g, line, flipped, x0, x1)
  {
    CountIsSize(g, line, flipped, GREY, |g|);
    var greys := Where(g, line, flipped, GREY, |g|);
    assert x0 in greys;
    var others := greys - {x0};
    assert |others| == 1;
    var x1 :| x1 in others;
    assert |others - {x1}| == 0;
    assert others - {x1} == {};
    assert greys == {x0, x1};
    forall x | 0 <= x < |g|
      ensures LineTile(g, line, flipped, x) == GREY <==> x == x0 || x == x1
    {
      assert x in greys <==> LineTile(g, line, flipped, x) == GREY;
    }
    assert x1 in greys;
    assert GreyPair(g, line, flipped, x0, x1);
  }

  // ---------------------------------------------------------------------
  // EvenColorTilesRule

  /** How many of the first `k` GREY tiles of the line are `t` in `s`. */
  function Turned(g: Grid, s: Grid, line: int, flipped: bool, t: Tile, k: nat): nat
    requires IsGrid(g) && IsGrid(s) && |s| == |g| && 0 <= line < |g| && k <= |g|
  {
    if k == 0 then 0
    else
      var turned := LineTile(g, line, flipped, k - 1) == GREY && LineTile(s, line, flipped, k - 1) == t;
      Turned(g, s, line, flipped, t, k - 1) + if turned then 1 else 0
  }

  /**
   * A refinement holds the colour `t` wherever `g` does, plus on the GREY
   * tiles of `g` it turns into `t`; if it turns all of them, each one is `t`.
   */
  lemma {:induction false} CountRefined(g: Grid, s: Grid, line: int, flipped: bool, t: Tile, k: nat)
    requires IsGrid(g) && IsGrid(s) && |s| == |g| && Refines(g, s) && t != GREY
    requires 0 <= line < |g| && k <= |g|
    ensures CountUpTo(s, line, flipped, t, k) == CountUpTo(g, line, flipped, t, k) + Turned(g, s, line, flipped, t, k)
    ensures Turned(g, s, line, flipped, t, k) <= CountUpTo(g, line, flipped, GREY, k)
    ensures Turned(g, s, line, flipped, t, k) == CountUpTo(g, line, flipped, GREY, k) ==>
      forall x :: 0 <= x < k && LineTile(g, line, flipped, x) == GREY ==> LineTile(s, line, flipped, x) == t
  {
    if k > 0 {
      CountRefined(g, s, line, flipped, t, k - 1);
      var c := Flipped(k - 1, line, flipped);
      assert InBounds(|g|, c);
      assert At(g, c) != GREY ==> At(s, c) == At(g, c);
    }
  }

  /** The colour a line forces on its GREY tiles is the colour they have in every solution. */
  lemma LineFillSound(g: Grid, s: Grid, line: int, flipped: bool, p: Coord)
    requires IsGrid(g) && Solves(g, s) && 0 <= line < |g| && LineFill(g, line, flipped).Some?
    requires InBounds(|g|, p) && LineOf(p, flipped) == line && At(g, p) == GREY
    ensures At(s, p) == LineFill(g, line, flipped).value
  {
    var t := LineFill(g, line, flipped).value;
    CountRefined(g, s, line, flipped, t, |g|);
    assert Count(s, line, flipped, t) == |g| / 2;
    var x := PosOf(p, flipped);
    LinePosition(x, line, flipped, p);
    assert LineTile(g, line, flipped, x) == GREY;
  }

  /** Every proposal of `EvenColorTilesRule` agrees with every solution. */
  lemma EvenColorSound(g: Grid, s: Grid, p: Coord)
    requires IsGrid(g) && Solves(g, s) && p in EvenColorActions(g)
    ensures InBounds(|g|, p) && At(s, p) == EvenColorActions(g)[p]
  {
    EvenColorActionsSpec(g, p);
    if LineFill(g, p.x, true).Some? {
      LineFillSound(g, s, p.x, true, p);
    } else {
      LineFillSound(g, s, p.y, false, p);
    }
  }

  // ---------------------------------------------------------------------
  // MaxTwoConnectedRule

  /** A lenient read of a known colour is a cell of the board, and a refinement keeps it. */
  lemma LenientKnown(g: Grid, s: Grid, x: int, y: int, t: Tile)
    requires IsGrid(g) && IsGrid(s) && |s| == |g| && Refines(g, s)
    requires t != GREY && Lenient(g, x, y) == t
    ensures InBounds(|g|, Coord(x, y)) && At(s, Coord(x, y)) == t
  {
  }

  /** A tile of colour `t` flanked by two more `t` tiles makes three in a row. */
  lemma FlankedTriple(g: Grid, s: Grid, p: Coord, t: Tile)
    requires IsGrid(g) && IsGrid(s) && |s| == |g| && Refines(g, s)
    requires InBounds(|g|, p) && t != GREY && Flanked(g, p.x, p.y, t)
    ensures At(s, p) == t ==> !NoThree(s)
  {
    var x, y := p.x, p.y;
    if At(s, p) == t {
      if Lenient(g, x + 1, y) == t && Lenient(g, x + 2, y) == t {
        LenientKnown(g, s, x + 1, y, t);
        LenientKnown(g, s, x + 2, y, t);
        assert Triple(s, y, false, x);
      } else if Lenient(g, x - 1, y) == t && Lenient(g, x - 2, y) == t {
        LenientKnown(g, s, x - 1, y, t);
        LenientKnown(g, s, x - 2, y, t);
        assert Triple(s, y, false, x - 2);
      } else if Lenient(g, x, y + 1) == t && Lenient(g, x, y + 2) == t {
        LenientKnown(g, s, x, y + 1, t);
        LenientKnown(g, s, x, y + 2, t);
        assert Triple(s, x, true, y);
      } else if Lenient(g, x, y - 1) == t && Lenient(g, x, y - 2) == t {
        LenientKnown(g, s, x, y - 1, t);
        LenientKnown(g, s, x, y - 2, t);
        assert Triple(s, x, true, y - 2);
      } else if Lenient(g, x + 1, y) == t && Lenient(g, x - 1, y) == t {
        LenientKnown(g, s, x + 1, y, t);
        LenientKnown(g, s, x - 1, y, t);
        assert Triple(s, y, false, x - 1);
      } else {
        LenientKnown(g, s, x, y + 1, t);
        LenientKnown(g, s, x, y - 1, t);
        assert Triple(s, x, true, y - 1);
      }
    }
  }

  /** Every proposal of `MaxTwoConnectedRule` agrees with every solution. */
  lemma MaxTwoSound(g: Grid, s: Grid, p: Coord)
    requires IsGrid(g) && Solves(g, s) && p in MaxTwoActions(g)
    ensures InBounds(|g|, p) && At(s, p) == MaxTwoActions(g)[p]
  {
    MaxTwoActionsSpec(g, p);
    var t := if Flanked(g, p.x, p.y, BLUE) then BLUE else RED;
    FlankedTriple(g, s, p, t);
    assert At(s, p) != GREY;
  }

  // ---------------------------------------------------------------------
  // NoEvenLinesRule

  /** 1 when position `x` of the line holds `t`, else 0. */
  function Has(s: Grid, line: int, flipped: bool, t: Tile, x: int): int
    requires IsGrid(s) && 0 <= line < |s| && 0 <= x < |s|
  {
    if LineTile(s, line, flipped, x) == t then 1 else 0
  }

  /** What position `x` adds to the difference of the counts of `t` in lines `a` and `b`, if it is below `k`. */
  function Gap(s: Grid, a: int, b: int, flipped: bool, t: Tile, x: int, k: nat): int
    requires IsGrid(s) && 0 <= a < |s| && 0 <= b < |s| && k <= |s|
  {
    if 0 <= x < k then Has(s, a, flipped, t, x) - Has(s, b, flipped, t, x) else 0
  }

  /** Two lines that agree except at `x0` and `x1` differ in their counts only there. */
  lemma {:induction false} CountDiff(s: Grid, a: int, b: int, flipped: bool, t: Tile, x0: int, x1: int, k: nat)
    requires IsGrid(s) && 0 <= a < |s| && 0 <= b < |s| && k <= |s| && x0 != x1
    requires forall x :: 0 <= x < |s| && x != x0 && x != x1 ==> LineTile(s, a, flipped, x) == LineTile(s, b, flipped, x)
    ensures CountUpTo(s, a, flipped, t, k) - CountUpTo(s, b, flipped, t, k) ==
      Gap(s, a, b, flipped, t, x0, k) + Gap(s, a, b, flipped, t, x1, k)
  {
    if k > 0 {
      CountDiff(s, a, b, flipped, t, x0, x1, k - 1);
    }
  }

  /**
   * In a finished board, two lines with the same number of REDs that agree
   * outside `x0` and `x1` and also agree at `x0` agree everywhere.
   */
  lemma AgreeAtOneAgreeAll(s: Grid, a: int, b: int, flipped: bool, x0: int, x1: int)
    requires IsGrid(s) && Complete(s) && 0 <= a < |s| && 0 <= b < |s|
    requires 0 <= x0 < |s| && 0 <= x1 < |s| && x0 != x1
    requires forall x :: 0 <= x < |s| && x != x0 && x != x1 ==> LineTile(s, a, flipped, x) == LineTile(s, b, flipped, x)
    requires Count(s, a, flipped, RED) == Count(s, b, flipped, RED)
    ensures LineTile(s, a, flipped, x0) == LineTile(s, b, flipped, x0) ==> SameLine(s, a, b, flipped)
  {
    CountDiff(s, a, b, flipped, RED, x0, x1, |s|);
    assert LineTile(s, a, flipped, x1) != GREY && LineTile(s, b, flipped, x1) != GREY by {
      assert InBounds(|s|, Flipped(x1, a, flipped)) && InBounds(|s|, Flipped(x1, b, flipped));
    }
  }

  /**
   * A pending line that matches a filled line differs from it in every
   * solution, so each of its two GREY tiles takes the colour opposite to
   * the filled line's tile at the same position.
   */
  lemma PendingSound(g: Grid, s: Grid, pending: int, filled: int, flipped: bool, x0: int)
    requires IsGrid(g) && Solves(g, s) && 0 <= pending < |g| && 0 <= filled < |g|
    requires Count(g, pending, flipped, GREY) == 2 && Count(g, filled, flipped, GREY) == 0
    requires Matches(g, pending, filled, flipped)
    requires 0 <= x0 < |g| && LineTile(g, pending, flipped, x0) == GREY
    ensures LineTile(s, pending, flipped, x0) == Opposite(LineTile(g, filled, flipped, x0))
  {
    NoGreyLeft(g, filled, flipped);
    TwoGrey(g, pending, flipped, x0);
    var x1 :| GreyPair(g, pending, flipped, x0, x1);
    forall x | 0 <= x < |s| && x != x0 && x != x1
      ensures LineTile(s, pending, flipped, x) == LineTile(s, filled, flipped, x)
    {
      assert LineTile(g, pending, flipped, x) != GREY;
      assert InBounds(|g|, Flipped(x, pending, flipped)) && InBounds(|g|, Flipped(x, filled, flipped));
    }
    assert Count(s, pending, flipped, RED) == Count(s, filled, flipped, RED);
    AgreeAtOneAgreeAll(s, pending, filled, flipped, x0, x1);
    assert pending != filled;
    assert InBounds(|g|, Flipped(x0, pending, flipped)) && InBounds(|g|, Flipped(x0, filled, flipped));
  }

  /** Every proposal of `NoEvenLinesRule` agrees with every solution. */
  lemma NoEvenSound(g: Grid, s: Grid, p: Coord)
    requires IsGrid(g) && Solves(g, s) && p in NoEvenActions(g)
    ensures InBounds(|g|, p) && At(s, p) == NoEvenActions(g)[p]
  {
    NoEvenActionsSpec(g, p);
    var f := MatchFor(g, p, true).Some?;
    MatchForSpec(g, p, f, 0);
    var m := MatchFor(g, p, f).value;
    var x0 := PosOf(p, f);
    LinePosition(x0, LineOf(p, f), f, p);
    PendingSound(g, s, LineOf(p, f), m, f, x0);
  }

  // ---------------------------------------------------------------------
  // Committing proposals

  /** Committing proposals that agree with a solution keeps it a solution. */
  lemma AgreeingActionsKeepSolution(g: Grid, s: Grid, actions: map<Coord, Tile>)
    requires IsGrid(g) && Solves(g, s)
    requires forall p :: p in actions ==> InBounds(|g|, p) && At(s, p) == actions[p]
    ensures Solves(ApplyActions(g, actions), s)
  {
  }
}
