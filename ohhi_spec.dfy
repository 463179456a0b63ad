/**
 * What each 0h h1 rule proposes, as functions of a board snapshot.
 *
 * The rules look at lines: a row (`flipped` false, line index y, position
 * x) or a column (`flipped` true, line index x, position y), exactly as the
 * flipped `BoardCoord` constructor addresses them. Each rule's result is
 * defined here in the order the rule builds it, so that later entries
 * overwrite earlier ones as `put` does; the lemmas beside each definition
 * say what the result is, independently of that order.
 */
module OhhiSpec {
  import opened Wrappers
  import opened Tiles
  import opened Coords
  import opened Grids

  /** The two colours, in the order the binary rules try them. */
  const Colours: seq<Tile> := [RED, BLUE]

  // ---------------------------------------------------------------------
  // Lines

  /** The index of the line through `p`: its row, or its column when flipped. */
  function LineOf(p: Coord, flipped: bool): int
  {
    if flipped then p.x else p.y
  }

  /** The position of `p` along that line. */
  function PosOf(p: Coord, flipped: bool): int
  {
    if flipped then p.y else p.x
  }

  lemma LinePosition(x: int, line: int, flipped: bool, p: Coord)
    ensures LineOf(Flipped(x, line, flipped), flipped) == line
    ensures PosOf(Flipped(x, line, flipped), flipped) == x
    ensures Flipped(PosOf(p, flipped), LineOf(p, flipped), flipped) == p
  {
  }

  /** The tile at position `x` of line `line`. */
  function LineTile(g: Grid, line: int, flipped: bool, x: int): Tile
    requires IsGrid(g) && 0 <= line < |g| && 0 <= x < |g|
  {
    At(g, Flipped(x, line, flipped))
  }

  /** How many of the first `k` tiles of the line are `t`. */
  function CountUpTo(g: Grid, line: int, flipped: bool, t: Tile, k: nat): nat
    requires IsGrid(g) && 0 <= line < |g| && k <= |g|
  {
    if k == 0 then 0
    else CountUpTo(g, line, flipped, t, k - 1) + if LineTile(g, line, flipped, k - 1) == t then 1 else 0
  }

  /** How many tiles of the line are `t`. */
  function Count(g: Grid, line: int, flipped: bool, t: Tile): nat
    requires IsGrid(g) && 0 <= line < |g|
  {
    CountUpTo(g, line, flipped, t, |g|)
  }

  /** The GREY tiles among the first `k` of the line. */
  function GreyUpTo(g: Grid, line: int, flipped: bool, k: nat): set<Coord>
    requires IsGrid(g) && 0 <= line < |g| && k <= |g|
  {
    set x | 0 <= x < k && LineTile(g, line, flipped, x) == GREY :: Flipped(x, line, flipped)
  }

  /** The GREY tiles of the line. */
  function GreyIn(g: Grid, line: int, flipped: bool): set<Coord>
    requires IsGrid(g) && 0 <= line < |g|
  {
    GreyUpTo(g, line, flipped, |g|)
  }

  /** The GREY tiles of a line are the board's GREY tiles whose line it is. */
  lemma GreyInSpec(g: Grid, line: int, flipped: bool, p: Coord)
    requires IsGrid(g) && 0 <= line < |g|
    ensures p in GreyIn(g, line, flipped) <==> InBounds(|g|, p) && LineOf(p, flipped) == line && At(g, p) == GREY
  {
    if InBounds(|g|, p) && LineOf(p, flipped) == line && At(g, p) == GREY {
      LinePosition(0, line, flipped, p);
      assert LineTile(g, line, flipped, PosOf(p, flipped)) == GREY;
    }
  }

  /** Looking at one more tile of the line adds it when it is GREY. */
  lemma GreyUpToStep(g: Grid, line: int, flipped: bool, k: nat)
    requires IsGrid(g) && 0 <= line < |g| && k < |g|
    ensures GreyUpTo(g, line, flipped, k + 1) ==
      GreyUpTo(g, line, flipped, k) + if LineTile(g, line, flipped, k) == GREY then {Flipped(k, line, flipped)} else {}
  {
    if LineTile(g, line, flipped, k) == GREY {
      assert Flipped(k, line, flipped) in GreyUpTo(g, line, flipped, k + 1);
    }
  }

  // ---------------------------------------------------------------------
  // EvenColorTilesRule

  /** The proposal one colour makes for a whole line, if its count topped up with the GREY tiles is half the board. */
  function FitFor(g: Grid, line: int, flipped: bool, t: Tile): map<Coord, Tile>
    requires IsGrid(g) && 0 <= line < |g|
  {
    if |g| / 2 - Count(g, line, flipped, t) == Count(g, line, flipped, GREY) then Uniform(GreyIn(g, line, flipped), t) else map[]
  }

  /**
   * For the colours `ts` in turn, that colour's proposal for the line; a
   * later colour overwrites.
   */
  function Fits(g: Grid, line: int, flipped: bool, ts: seq<Tile>): map<Coord, Tile>
    requires IsGrid(g) && 0 <= line < |g|
  {
    if ts == [] then map[]
    else
      Fits(g, line, flipped, ts[..|ts| - 1]) + FitFor(g, line, flipped, ts[|ts| - 1])
  }

  /** What the rule proposes for one line: nothing for a line without GREY tiles. */
  function LineActions(g: Grid, line: int, flipped: bool): map<Coord, Tile>
    requires IsGrid(g) && 0 <= line < |g|
  {
    if Count(g, line, flipped, GREY) == 0 then map[] else Fits(g, line, flipped, Colours)
  }

  /** One pass of the rule over lines 0 .. k-1. */
  function EvenPass(g: Grid, flipped: bool, k: nat): map<Coord, Tile>
    requires IsGrid(g) && k <= |g|
  {
    if k == 0 then map[] else EvenPass(g, flipped, k - 1) + LineActions(g, k - 1, flipped)
  }

  /** `EvenColorTilesRule.apply`: the pass over the rows, then the pass over the columns. */
  function EvenColorActions(g: Grid): map<Coord, Tile>
    requires IsGrid(g)
  {
    EvenPass(g, false, |g|) + EvenPass(g, true, |g|)
  }

  /**
   * The colour the GREY tiles of a line must all take so that each colour
   * fills half of it, if the known tiles already force one. BLUE is tried
   * last by the rule, so it wins should both colours qualify.
   */
  function LineFill(g: Grid, line: int, flipped: bool): Option<Tile>
    requires IsGrid(g) && 0 <= line < |g|
  {
    var grey := Count(g, line, flipped, GREY);
    if grey == 0 then None
    else if |g| / 2 - Count(g, line, flipped, BLUE) == grey then Some(BLUE)
    else if |g| / 2 - Count(g, line, flipped, RED) == grey then Some(RED)
    else None
  }

  /** One line's proposals: every GREY tile of the line takes the forced colour, if there is one. */
  lemma LineActionsSpec(g: Grid, line: int, flipped: bool)
    requires IsGrid(g) && 0 <= line < |g|
    ensures LineActions(g, line, flipped) ==
      if LineFill(g, line, flipped).Some? then Uniform(GreyIn(g, line, flipped), LineFill(g, line, flipped).value) else map[]
  {
    var grey := GreyIn(g, line, flipped);
    var unknown := Count(g, line, flipped, GREY);
    var red := FitFor(g, line, flipped, RED);
    var blue := FitFor(g, line, flipped, BLUE);
    FitsColours(g, line, flipped);
    if unknown != 0 {
      if blue != map[] {
        UniformMergeSame(grey, RED, BLUE);
        assert red + blue == Uniform(grey, BLUE);
      } else {
        assert red + blue == red;
      }
    }
  }

  /** The colours are tried RED first, then BLUE. */
  lemma FitsColours(g: Grid, line: int, flipped: bool)
    requires IsGrid(g) && 0 <= line < |g|
    ensures Fits(g, line, flipped, Colours) == FitFor(g, line, flipped, RED) + FitFor(g, line, flipped, BLUE)
  {
    assert Colours[..1] == [RED] && [RED][..0] == [];
    assert Fits(g, line, flipped, [RED]) == map[] + FitFor(g, line, flipped, RED);
  }

  /** Two proposals on the same tiles: the later one is what remains. */
  lemma UniformMergeSame(targets: set<Coord>, s: Tile, t: Tile)
    ensures Uniform(targets, s) + Uniform(targets, t) == Uniform(targets, t)
  {
  }

  /** A pass proposes, for each GREY tile on one of its first `k` lines, that line's forced colour. */
  lemma {:induction false} EvenPassSpec(g: Grid, flipped: bool, k: nat, p: Coord)
    requires IsGrid(g) && k <= |g|
    ensures p in EvenPass(g, flipped, k) <==>
      InBounds(|g|, p) && LineOf(p, flipped) < k && At(g, p) == GREY && LineFill(g, LineOf(p, flipped), flipped).Some?
    ensures p in EvenPass(g, flipped, k) ==> EvenPass(g, flipped, k)[p] == LineFill(g, LineOf(p, flipped), flipped).value
  {
    if k > 0 {
      EvenPassSpec(g, flipped, k - 1, p);
      LineActionsSpec(g, k - 1, flipped);
      GreyInSpec(g, k - 1, flipped, p);
    }
  }

  /**
   * The rule proposes exactly the GREY tiles whose row or column forces a
   * colour; the column pass runs second, so its colour is the one kept.
   */
  lemma EvenColorActionsSpec(g: Grid, p: Coord)
    requires IsGrid(g)
    ensures p in EvenColorActions(g) <==>
      InBounds(|g|, p) && At(g, p) == GREY && (LineFill(g, p.y, false).Some? || LineFill(g, p.x, true).Some?)
    ensures p in EvenColorActions(g) ==>
      EvenColorActions(g)[p] == (if LineFill(g, p.x, true).Some? then LineFill(g, p.x, true).value else LineFill(g, p.y, false).value)
  {
    EvenPassSpec(g, false, |g|, p);
    EvenPassSpec(g, true, |g|, p);
  }

  /** A row of four reading RED, GREY, RED, GREY already holds its two REDs, so both GREY tiles become BLUE. */
  lemma EvenColorExample(g: Grid, y: int)
    requires IsGrid(g) && |g| == 4 && 0 <= y < 4
    requires g[0][y] == RED && g[1][y] == GREY && g[2][y] == RED && g[3][y] == GREY
    ensures LineActions(g, y, false) == map[Coord(1, y) := BLUE, Coord(3, y) := BLUE]
  {
    assert LineTile(g, y, false, 0) == RED && LineTile(g, y, false, 1) == GREY;
    assert LineTile(g, y, false, 2) == RED && LineTile(g, y, false, 3) == GREY;
    assert CountUpTo(g, y, false, GREY, 1) == 0;
    assert CountUpTo(g, y, false, GREY, 2) == 1;
    assert CountUpTo(g, y, false, GREY, 3) == 1;
    assert Count(g, y, false, GREY) == 2;
    assert CountUpTo(g, y, false, BLUE, 1) == 0;
    assert CountUpTo(g, y, false, BLUE, 2) == 0;
    assert CountUpTo(g, y, false, BLUE, 3) == 0;
    assert Count(g, y, false, BLUE) == 0;
    LineActionsSpec(g, y, false);
    forall p
      ensures p in GreyIn(g, y, false) <==> p == Coord(1, y) || p == Coord(3, y)
    {
      GreyInSpec(g, y, false, p);
    }
    assert GreyIn(g, y, false) == {Coord(1, y), Coord(3, y)};
  }

  // ---------------------------------------------------------------------
  // MaxTwoConnectedRule

  /**
   * Two tiles of colour `t` line up with (x, y): both beyond it on one
   * side, or one on each side, along its row or its column. A read off the
   * board is GREY, so it never completes a pattern.
   */
  predicate Flanked(g: Grid, x: int, y: int, t: Tile)
    requires IsGrid(g)
  {
    (Lenient(g, x + 1, y) == t && Lenient(g, x + 2, y) == t) ||
    (Lenient(g, x - 1, y) == t && Lenient(g, x - 2, y) == t) ||
    (Lenient(g, x, y + 1) == t && Lenient(g, x, y + 2) == t) ||
    (Lenient(g, x, y - 1) == t && Lenient(g, x, y - 2) == t) ||
    (Lenient(g, x + 1, y) == t && Lenient(g, x - 1, y) == t) ||
    (Lenient(g, x, y + 1) == t && Lenient(g, x, y - 1) == t)
  }

  /** For the colours `ts` in turn, the other colour when this one flanks (x, y); a later colour overwrites. */
  function CellMark(g: Grid, x: int, y: int, ts: seq<Tile>): Option<Tile>
    requires IsGrid(g)
  {
    if ts == [] then None
    else if Flanked(g, x, y, ts[|ts| - 1]) then Some(Opposite(ts[|ts| - 1]))
    else CellMark(g, x, y, ts[..|ts| - 1])
  }

  /** What the rule proposes for the GREY tiles before (x, y) in row-major order. */
  function MaxTwoUpTo(g: Grid, y: int, x: int): map<Coord, Tile>
    requires IsGrid(g)
  {
    map p | p in AllCoords(|g|) && (p.y < y || (p.y == y && p.x < x)) && At(g, p) == GREY && CellMark(g, p.x, p.y, Colours).Some?
      :: CellMark(g, p.x, p.y, Colours).value
  }

  /** `MaxTwoConnectedRule.apply`: the proposals for the whole board. */
  function MaxTwoActions(g: Grid): map<Coord, Tile>
    requires IsGrid(g)
  {
    MaxTwoUpTo(g, |g|, 0)
  }

  /** Visiting (x, y) adds its proposal, if it is GREY and flanked. */
  lemma MaxTwoNext(g: Grid, y: int, x: int, actions: map<Coord, Tile>)
    requires IsGrid(g) && 0 <= y < |g| && 0 <= x < |g|
    requires actions == MaxTwoUpTo(g, y, x)
    ensures MaxTwoUpTo(g, y, x + 1) ==
      if At(g, Coord(x, y)) == GREY && CellMark(g, x, y, Colours).Some?
      then actions[Coord(x, y) := CellMark(g, x, y, Colours).value] else actions
  {
  }

  /** The end of a row is the start of the next one. */
  lemma MaxTwoRow(g: Grid, y: int)
    requires IsGrid(g)
    ensures MaxTwoUpTo(g, y, |g|) == MaxTwoUpTo(g, y + 1, 0)
  {
  }

  /** The colour a flanked tile takes: RED when two BLUEs line up with it, else BLUE when two REDs do. */
  lemma CellMarkSpec(g: Grid, x: int, y: int)
    requires IsGrid(g)
    ensures CellMark(g, x, y, Colours) ==
      if Flanked(g, x, y, BLUE) then Some(RED) else if Flanked(g, x, y, RED) then Some(BLUE) else None
  {
    assert Colours[..1] == [RED] && [RED][..0] == [];
    assert CellMark(g, x, y, [RED]) == if Flanked(g, x, y, RED) then Some(BLUE) else None;
  }

  /**
   * The rule proposes exactly the GREY tiles that two tiles of one colour
   * line up with, and proposes the other colour; BLUE is tried last, so a
   * tile flanked by both colours becomes RED.
   */
  lemma MaxTwoActionsSpec(g: Grid, p: Coord)
    requires IsGrid(g)
    ensures p in MaxTwoActions(g) <==>
      InBounds(|g|, p) && At(g, p) == GREY && (Flanked(g, p.x, p.y, RED) || Flanked(g, p.x, p.y, BLUE))
    ensures p in MaxTwoActions(g) ==>
      MaxTwoActions(g)[p] == if Flanked(g, p.x, p.y, BLUE) then RED else BLUE
  {
    CellMarkSpec(g, p.x, p.y);
  }

  /** Two BLUE tiles at the start of the top row make the GREY tile after them RED. */
  lemma MaxTwoExample(g: Grid)
    requires IsGrid(g) && |g| >= 3
    requires g[0][0] == BLUE && g[1][0] == BLUE && g[2][0] == GREY
    ensures Coord(2, 0) in MaxTwoActions(g) && MaxTwoActions(g)[Coord(2, 0)] == RED
  {
    assert Flanked(g, 2, 0, BLUE);
    MaxTwoActionsSpec(g, Coord(2, 0));
  }

  // ---------------------------------------------------------------------
  // NoEvenLinesRule

  /** The lines among 0 .. k-1 with exactly `grey` GREY tiles, in increasing order. */
  function LinesWithGrey(g: Grid, flipped: bool, grey: nat, k: nat): (ls: seq<int>)
    requires IsGrid(g) && k <= |g|
    ensures forall i :: 0 <= i < |ls| ==> 0 <= ls[i] < k
  {
    if k == 0 then []
    else LinesWithGrey(g, flipped, grey, k - 1) + if Count(g, k - 1, flipped, GREY) == grey then [k - 1] else []
  }

  /** The positions among the first `k` of the line that hold GREY, in increasing order. */
  function GreyPositions(g: Grid, line: int, flipped: bool, k: nat): (xs: seq<int>)
    requires IsGrid(g) && 0 <= line < |g| && k <= |g|
    ensures forall i :: 0 <= i < |xs| ==> 0 <= xs[i] < k
  {
    if k == 0 then []
    else GreyPositions(g, line, flipped, k - 1) + if LineTile(g, line, flipped, k - 1) == GREY then [k - 1] else []
  }

  /** Every index of `ls` is a line of the board. */
  predicate LinesOf(g: Grid, ls: seq<int>)
  {
    forall i :: 0 <= i < |ls| ==> 0 <= ls[i] < |g|
  }

  /** The known tiles of line `pending` agree with line `filled`. */
  predicate Matches(g: Grid, pending: int, filled: int, flipped: bool)
    requires IsGrid(g) && 0 <= pending < |g| && 0 <= filled < |g|
  {
    forall x :: 0 <= x < |g| ==>
      LineTile(g, pending, flipped, x) == GREY || LineTile(g, pending, flipped, x) == LineTile(g, filled, flipped, x)
  }

  /** For each position in `xs` of line `pending`, the colour opposite to the one line `filled` has there. */
  function Complement(g: Grid, pending: int, filled: int, flipped: bool, xs: seq<int>): map<Coord, Tile>
    requires IsGrid(g) && 0 <= pending < |g| && 0 <= filled < |g| && LinesOf(g, xs)
  {
    if xs == [] then map[]
    else
      var x := xs[|xs| - 1];
      Complement(g, pending, filled, flipped, xs[..|xs| - 1])[Flipped(x, pending, flipped) := Opposite(LineTile(g, filled, flipped, x))]
  }

  /** For the filled lines `fs` in turn: each one the pending line matches sends its GREY tiles to the opposite colours. */
  function PendingActions(g: Grid, pending: int, flipped: bool, fs: seq<int>): map<Coord, Tile>
    requires IsGrid(g) && 0 <= pending < |g| && LinesOf(g, fs)
  {
    if fs == [] then map[]
    else
      var f := fs[|fs| - 1];
      PendingActions(g, pending, flipped, fs[..|fs| - 1]) +
        if Matches(g, pending, f, flipped) then Complement(g, pending, f, flipped, GreyPositions(g, pending, flipped, |g|)) else map[]
  }

  /** One pass of the rule: the pending lines `ps` in turn, each against the filled lines `fs`. */
  function NoEvenPass(g: Grid, flipped: bool, ps: seq<int>, fs: seq<int>): map<Coord, Tile>
    requires IsGrid(g) && LinesOf(g, ps) && LinesOf(g, fs)
  {
    if ps == [] then map[]
    else NoEvenPass(g, flipped, ps[..|ps| - 1], fs) + PendingActions(g, ps[|ps| - 1], flipped, fs)
  }

  /** The filled lines (no GREY tile) of one orientation. */
  function FilledLines(g: Grid, flipped: bool): (ls: seq<int>)
    requires IsGrid(g)
    ensures LinesOf(g, ls)
  {
    LinesWithGrey(g, flipped, 0, |g|)
  }

  /** The pending lines (exactly two GREY tiles) of one orientation. */
  function PendingLines(g: Grid, flipped: bool): (ls: seq<int>)
    requires IsGrid(g)
    ensures LinesOf(g, ls)
  {
    LinesWithGrey(g, flipped, 2, |g|)
  }

  /** `NoEvenLinesRule.apply`: the pass over the rows, then the pass over the columns. */
  function NoEvenActions(g: Grid): map<Coord, Tile>
    requires IsGrid(g)
  {
    NoEvenPass(g, false, PendingLines(g, false), FilledLines(g, false)) +
    NoEvenPass(g, true, PendingLines(g, true), FilledLines(g, true))
  }

  /** The last of `fs` that line `pending` matches, if any: its proposals are the ones that remain. */
  function LastMatch(g: Grid, pending: int, flipped: bool, fs: seq<int>): (m: Option<int>)
    requires IsGrid(g) && 0 <= pending < |g| && LinesOf(g, fs)
    ensures m.Some? ==> m.value in fs && Matches(g, pending, m.value, flipped)
    ensures m.None? ==> forall i :: 0 <= i < |fs| ==> !Matches(g, pending, fs[i], flipped)
  {
    if fs == [] then None
    else if Matches(g, pending, fs[|fs| - 1], flipped) then Some(fs[|fs| - 1])
    else LastMatch(g, pending, flipped, fs[..|fs| - 1])
  }

  /** The line of `p` in one orientation is pending, and the filled line it is completed from, if any. */
  function MatchFor(g: Grid, p: Coord, flipped: bool): Option<int>
    requires IsGrid(g) && InBounds(|g|, p)
  {
    if Count(g, LineOf(p, flipped), flipped, GREY) == 2
    then LastMatch(g, LineOf(p, flipped), flipped, FilledLines(g, flipped))
    else None
  }

  lemma {:induction false} LinesWithGreySpec(g: Grid, flipped: bool, grey: nat, k: nat, line: int)
    requires IsGrid(g) && k <= |g|
    ensures line in LinesWithGrey(g, flipped, grey, k) <==> 0 <= line < k && Count(g, line, flipped, GREY) == grey
  {
    if k > 0 {
      LinesWithGreySpec(g, flipped, grey, k - 1, line);
    }
  }

  /** Each index of `ls` is smaller than the ones after it. */
  predicate Increasing(ls: seq<int>)
  {
    forall i, j :: 0 <= i < j < |ls| ==> ls[i] < ls[j]
  }

  /** The lines are collected in increasing order. */
  lemma {:induction false} LinesWithGreySorted(g: Grid, flipped: bool, grey: nat, k: nat)
    requires IsGrid(g) && k <= |g|
    ensures Increasing(LinesWithGrey(g, flipped, grey, k))
  {
    if k > 0 {
      LinesWithGreySorted(g, flipped, grey, k - 1);
      var prev := LinesWithGrey(g, flipped, grey, k - 1);
      var ls := LinesWithGrey(g, flipped, grey, k);
      assert ls == prev + if Count(g, k - 1, flipped, GREY) == grey then [k - 1] else [];
      forall i, j | 0 <= i < j < |ls|
        ensures ls[i] < ls[j]
      {
        if j < |prev| {
          assert ls[i] == prev[i] && ls[j] == prev[j];
        } else {
          assert ls[i] == prev[i] && ls[j] == k - 1;
        }
      }
    }
  }

  lemma {:induction false} GreyPositionsSpec(g: Grid, line: int, flipped: bool, k: nat, x: int)
    requires IsGrid(g) && 0 <= line < |g| && k <= |g|
    ensures x in GreyPositions(g, line, flipped, k) <==> 0 <= x < k && LineTile(g, line, flipped, x) == GREY
  {
    if k > 0 {
      GreyPositionsSpec(g, line, flipped, k - 1, x);
    }
  }

  /** The complement covers exactly the positions `xs` of the pending line, each with the filled line's other colour. */
  lemma {:induction false} ComplementSpec(g: Grid, pending: int, filled: int, flipped: bool, xs: seq<int>, p: Coord)
    requires IsGrid(g) && 0 <= pending < |g| && 0 <= filled < |g| && LinesOf(g, xs)
    ensures p in Complement(g, pending, filled, flipped, xs) <==> LineOf(p, flipped) == pending && PosOf(p, flipped) in xs
    ensures p in Complement(g, pending, filled, flipped, xs) ==>
      Complement(g, pending, filled, flipped, xs)[p] == Opposite(LineTile(g, filled, flipped, PosOf(p, flipped)))
  {
    LinePosition(0, pending, flipped, p);
    if xs != [] {
      var x := xs[|xs| - 1];
      LinePosition(x, pending, flipped, p);
      ComplementSpec(g, pending, filled, flipped, xs[..|xs| - 1], p);
      assert xs == xs[..|xs| - 1] + [x];
    }
  }

  /** A pending line's proposals: its GREY tiles, opposite to the last filled line it matches, if any. */
  lemma {:induction false} PendingActionsSpec(g: Grid, pending: int, flipped: bool, fs: seq<int>, p: Coord)
    requires IsGrid(g) && 0 <= pending < |g| && LinesOf(g, fs)
    ensures p in PendingActions(g, pending, flipped, fs) <==>
      LastMatch(g, pending, flipped, fs).Some? && InBounds(|g|, p) && LineOf(p, flipped) == pending && At(g, p) == GREY
    ensures p in PendingActions(g, pending, flipped, fs) ==>
      PendingActions(g, pending, flipped, fs)[p] ==
        Opposite(LineTile(g, LastMatch(g, pending, flipped, fs).value, flipped, PosOf(p, flipped)))
  {
    if fs != [] {
      var f := fs[|fs| - 1];
      PendingActionsSpec(g, pending, flipped, fs[..|fs| - 1], p);
      LinePosition(0, pending, flipped, p);
      if Matches(g, pending, f, flipped) {
        ComplementSpec(g, pending, f, flipped, GreyPositions(g, pending, flipped, |g|), p);
        GreyPositionsSpec(g, pending, flipped, |g|, PosOf(p, flipped));
      }
    }
  }

  /** A pass proposes, for each tile on one of the pending lines `ps`, that line's proposal. */
  lemma {:induction false} NoEvenPassSpec(g: Grid, flipped: bool, ps: seq<int>, fs: seq<int>, p: Coord)
    requires IsGrid(g) && LinesOf(g, ps) && LinesOf(g, fs)
    ensures p in NoEvenPass(g, flipped, ps, fs) <==>
      LineOf(p, flipped) in ps && p in PendingActions(g, LineOf(p, flipped), flipped, fs)
    ensures p in NoEvenPass(g, flipped, ps, fs) ==>
      NoEvenPass(g, flipped, ps, fs)[p] == PendingActions(g, LineOf(p, flipped), flipped, fs)[p]
  {
    if ps != [] {
      var last := ps[|ps| - 1];
      NoEvenPassSpec(g, flipped, ps[..|ps| - 1], fs, p);
      PendingActionsSpec(g, last, flipped, fs, p);
      assert ps == ps[..|ps| - 1] + [last];
    }
  }

  /**
   * The rule proposes exactly the GREY tiles whose row or column has two
   * GREY tiles and matches a filled line; the column pass runs second, so
   * its proposal is kept. The proposal is the colour opposite to the one
   * the filled line has at the same position.
   */
  lemma NoEvenActionsSpec(g: Grid, p: Coord)
    requires IsGrid(g)
    ensures p in NoEvenActions(g) <==>
      InBounds(|g|, p) && At(g, p) == GREY && (MatchFor(g, p, false).Some? || MatchFor(g, p, true).Some?)
    ensures p in NoEvenActions(g) ==>
      var f := MatchFor(g, p, true).Some?;
      NoEvenActions(g)[p] == Opposite(LineTile(g, MatchFor(g, p, f).value, f, PosOf(p, f)))
  {
    NoEvenPassInLine(g, false, p);
    NoEvenPassInLine(g, true, p);
  }

  /** One pass, in terms of the line of `p`. */
  lemma NoEvenPassInLine(g: Grid, flipped: bool, p: Coord)
    requires IsGrid(g)
    ensures var pass := NoEvenPass(g, flipped, PendingLines(g, flipped), FilledLines(g, flipped));
      (p in pass <==> InBounds(|g|, p) && At(g, p) == GREY && MatchFor(g, p, flipped).Some?) &&
      (p in pass ==> pass[p] == Opposite(LineTile(g, MatchFor(g, p, flipped).value, flipped, PosOf(p, flipped))))
  {
    NoEvenPassSpec(g, flipped, PendingLines(g, flipped), FilledLines(g, flipped), p);
    if 0 <= LineOf(p, flipped) < |g| {
      LinesWithGreySpec(g, flipped, 2, |g|, LineOf(p, flipped));
      PendingActionsSpec(g, LineOf(p, flipped), flipped, FilledLines(g, flipped), p);
    }
  }

  /** Among increasing filled lines, the last match is the largest one. */
  lemma {:induction false} LastMatchLargest(g: Grid, pending: int, flipped: bool, fs: seq<int>)
    requires IsGrid(g) && 0 <= pending < |g| && LinesOf(g, fs) && Increasing(fs)
    ensures LastMatch(g, pending, flipped, fs).Some? ==>
      forall i :: 0 <= i < |fs| && fs[i] > LastMatch(g, pending, flipped, fs).value ==> !Matches(g, pending, fs[i], flipped)
  {
    if fs != [] && !Matches(g, pending, fs[|fs| - 1], flipped) {
      LastMatchLargest(g, pending, flipped, fs[..|fs| - 1]);
    }
  }

  /**
   * The filled line a pending line is completed from: a line without GREY
   * tiles that the pending line matches, and the largest such line; when
   * there is none, no filled line matches at all.
   */
  lemma MatchForSpec(g: Grid, p: Coord, flipped: bool, f: int)
    requires IsGrid(g) && InBounds(|g|, p)
    ensures MatchFor(g, p, flipped).Some? ==>
      var m := MatchFor(g, p, flipped).value;
      0 <= m < |g| && Count(g, LineOf(p, flipped), flipped, GREY) == 2 && Count(g, m, flipped, GREY) == 0 &&
      Matches(g, LineOf(p, flipped), m, flipped) &&
      (m < f < |g| && Count(g, f, flipped, GREY) == 0 ==> !Matches(g, LineOf(p, flipped), f, flipped))
    ensures MatchFor(g, p, flipped).None? && Count(g, LineOf(p, flipped), flipped, GREY) == 2 ==>
      (0 <= f < |g| && Count(g, f, flipped, GREY) == 0 ==> !Matches(g, LineOf(p, flipped), f, flipped))
  {
    var fs := FilledLines(g, flipped);
    var line := LineOf(p, flipped);
    LinesWithGreySpec(g, flipped, 0, |g|, f);
    LinesWithGreySorted(g, flipped, 0, |g|);
    if Count(g, line, flipped, GREY) == 2 {
      LastMatchLargest(g, line, flipped, fs);
      var m := LastMatch(g, line, flipped, fs);
      if m.Some? {
        LinesWithGreySpec(g, flipped, 0, |g|, m.value);
      }
    }
  }

  /** A pending row RED, GREY, GREY, BLUE that matches the filled row RED, BLUE, RED, BLUE is completed as RED, RED, BLUE, BLUE. */
  lemma NoEvenExample(g: Grid)
    requires IsGrid(g) && |g| == 4
    requires g[0][0] == RED && g[1][0] == BLUE && g[2][0] == RED && g[3][0] == BLUE
    requires g[0][1] == RED && g[1][1] == GREY && g[2][1] == GREY && g[3][1] == BLUE
    ensures PendingActions(g, 1, false, [0]) == map[Coord(1, 1) := RED, Coord(2, 1) := BLUE]
  {
    assert Matches(g, 1, 0, false);
    assert [0][..0] == [];
    var r := PendingActions(g, 1, false, [0]);
    forall p
      ensures p in r <==> p == Coord(1, 1) || p == Coord(2, 1)
      ensures p in r ==> r[p] == if p == Coord(1, 1) then RED else BLUE
    {
      PendingActionsSpec(g, 1, false, [0], p);
    }
  }
}
