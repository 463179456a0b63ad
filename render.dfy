/**
 * The text `toString` produces for a board: one line per row, top to
 * bottom, each tile as a two-character token and a line break after each
 * row. A 0h n0 board shows a BLUE tile that carries a requirement as that
 * number instead; the plain board is the case without requirements.
 */
module Rendering {
  import opened Tiles
  import opened Coords
  import opened Text
  import opened Grids

  /** A tile's two-character token: its initial and a space, ". " for GREY. */
  function Token(t: Tile): (s: string)
    ensures |s| == 2 && s[1] == ' '
  {
    match t
    case RED => "R "
    case BLUE => "B "
    case GREY => ". "
  }

  /** The decimal text of every requirement. */
  function Labels(requirements: map<Coord, int>): (labels: map<Coord, string>)
    ensures labels.Keys == requirements.Keys
    ensures forall c :: c in labels ==> labels[c] == IntToString(requirements[c])
  {
    map c | c in requirements :: IntToString(requirements[c])
  }

  /** The token of the tile `t` at `c`: a BLUE tile with a label shows the label. */
  function Piece(t: Tile, c: Coord, labels: map<Coord, string>): string
  {
    if t == BLUE && c in labels then labels[c] + " " else Token(t)
  }

  function CellText(g: Grid, labels: map<Coord, string>, x: int, y: int): string
    requires IsGrid(g)
  {
    if InBounds(|g|, Coord(x, y)) then Piece(g[x][y], Coord(x, y), labels) else ""
  }

  /** The tokens of columns 0 .. k-1 of row y. */
  function RowText(g: Grid, labels: map<Coord, string>, y: int, k: nat): string
    requires IsGrid(g)
  {
    if k == 0 then "" else RowText(g, labels, y, k - 1) + CellText(g, labels, k - 1, y)
  }

  /** Rows 0 .. k-1, each followed by a line break. */
  function RowsText(g: Grid, labels: map<Coord, string>, k: nat): string
    requires IsGrid(g)
  {
    if k == 0 then "" else RowsText(g, labels, k - 1) + RowText(g, labels, k - 1, |g|) + "\n"
  }

  /** `toString` of a board whose every cell is assigned. */
  function Render(g: Grid): string
    requires IsGrid(g)
  {
    RowsText(g, map[], |g|)
  }

  /** `toString` of a 0h n0 board whose every cell is assigned. */
  function OhnoRender(g: Grid, requirements: map<Coord, int>): string
    requires IsGrid(g)
  {
    RowsText(g, Labels(requirements), |g|)
  }

  /** Two boards of one size whose tokens agree everywhere print alike. */
  lemma {:induction false} RowsTextCongruent(g1: Grid, r1: map<Coord, string>, g2: Grid, r2: map<Coord, string>, k: nat)
    requires IsGrid(g1) && IsGrid(g2) && |g1| == |g2|
    requires forall x, y :: 0 <= x < |g1| && 0 <= y < k ==> CellText(g1, r1, x, y) == CellText(g2, r2, x, y)
    ensures RowsText(g1, r1, k) == RowsText(g2, r2, k)
  {
    if k > 0 {
      RowsTextCongruent(g1, r1, g2, r2, k - 1);
      RowTextCongruent(g1, r1, g2, r2, k - 1, |g1|);
    }
  }

  lemma {:induction false} RowTextCongruent(g1: Grid, r1: map<Coord, string>, g2: Grid, r2: map<Coord, string>, y: int, k: nat)
    requires IsGrid(g1) && IsGrid(g2)
    requires forall x :: 0 <= x < k ==> CellText(g1, r1, x, y) == CellText(g2, r2, x, y)
    ensures RowText(g1, r1, y, k) == RowText(g2, r2, y, k)
  {
    if k > 0 {
      RowTextCongruent(g1, r1, g2, r2, y, k - 1);
    }
  }

  /**
   * Requirements on tiles that are not BLUE do not show: such a 0h n0 board
   * prints exactly as the plain board does.
   */
  lemma OhnoRenderPlain(g: Grid, requirements: map<Coord, int>)
    requires IsGrid(g)
    requires forall c :: c in requirements && InBounds(|g|, c) ==> At(g, c) != BLUE
    ensures OhnoRender(g, requirements) == Render(g)
  {
    var labels := Labels(requirements);
    forall x, y | 0 <= x < |g| && 0 <= y < |g|
      ensures CellText(g, labels, x, y) == CellText(g, map[], x, y)
    {
      assert InBounds(|g|, Coord(x, y));
    }
    RowsTextCongruent(g, labels, g, map[], |g|);
  }

  /** A BLUE tile with a requirement shows the number, never the plain "B ". */
  lemma PieceShowsRequirement(c: Coord, requirements: map<Coord, int>)
    requires c in requirements
    ensures Piece(BLUE, c, Labels(requirements)) == IntToString(requirements[c]) + " "
    ensures Piece(BLUE, c, Labels(requirements)) != Token(BLUE)
  {
    var s := IntToString(requirements[c]);
    IntToStringChars(requirements[c]);
    assert (s + " ")[0] == s[0];
  }

  /** Two equal concatenations whose right parts have equal length split equally. */
  lemma SplitEqual(a: string, b: string, c: string, d: string)
    requires a + b == c + d && |b| == |d|
    ensures a == c && b == d
  {
    assert a == (a + b)[..|a|];
    assert c == (c + d)[..|c|];
    assert b == (a + b)[|a|..];
    assert d == (c + d)[|c|..];
  }

  lemma {:induction false} RowTextLength(g: Grid, y: int, k: nat)
    requires IsGrid(g) && 0 <= y < |g| && k <= |g|
    ensures |RowText(g, map[], y, k)| == 2 * k
  {
    if k > 0 {
      RowTextLength(g, y, k - 1);
    }
  }

  /** Where line y starts in the rendering of an n-column board. */
  function LineStart(n: nat, y: nat): nat
  {
    if y == 0 then 0 else LineStart(n, y - 1) + 2 * n + 1
  }

  lemma {:induction false} RowsTextLength(g: Grid, k: nat)
    requires IsGrid(g) && k <= |g|
    ensures |RowsText(g, map[], k)| == LineStart(|g|, k)
  {
    if k > 0 {
      RowsTextLength(g, k - 1);
      RowTextLength(g, k - 1, |g|);
    }
  }

  /** A row's text determines the row's tiles. */
  lemma {:induction false} RowTextInjective(g1: Grid, g2: Grid, y: int, k: nat)
    requires IsGrid(g1) && IsGrid(g2) && |g1| == |g2| && 0 <= y < |g1| && k <= |g1|
    requires RowText(g1, map[], y, k) == RowText(g2, map[], y, k)
    ensures forall x :: 0 <= x < k ==> g1[x][y] == g2[x][y]
  {
    if k > 0 {
      assert InBounds(|g1|, Coord(k - 1, y));
      SplitEqual(RowText(g1, map[], y, k - 1), Token(g1[k - 1][y]), RowText(g2, map[], y, k - 1), Token(g2[k - 1][y]));
      RowTextInjective(g1, g2, y, k - 1);
    }
  }

  /** Equal texts of the first k rows have equal first k - 1 rows and equal last rows. */
  lemma LastRowEqual(g1: Grid, g2: Grid, k: nat)
    requires IsGrid(g1) && IsGrid(g2) && |g1| == |g2| && 0 < k <= |g1|
    requires RowsText(g1, map[], k) == RowsText(g2, map[], k)
    ensures RowsText(g1, map[], k - 1) == RowsText(g2, map[], k - 1)
    ensures RowText(g1, map[], k - 1, |g1|) == RowText(g2, map[], k - 1, |g1|)
  {
    var n := |g1|;
    var line1 := RowText(g1, map[], k - 1, n);
    var line2 := RowText(g2, map[], k - 1, n);
    RowTextLength(g1, k - 1, n);
    RowTextLength(g2, k - 1, n);
    assert RowsText(g1, map[], k) == RowsText(g1, map[], k - 1) + (line1 + "\n");
    assert RowsText(g2, map[], k) == RowsText(g2, map[], k - 1) + (line2 + "\n");
    SplitEqual(RowsText(g1, map[], k - 1), line1 + "\n", RowsText(g2, map[], k - 1), line2 + "\n");
    assert line1 == (line1 + "\n")[..2 * n];
    assert line2 == (line2 + "\n")[..2 * n];
  }

  /** A board's text determines its tiles. */
  lemma {:induction false} RowsTextInjective(g1: Grid, g2: Grid, k: nat)
    requires IsGrid(g1) && IsGrid(g2) && |g1| == |g2| && k <= |g1|
    requires RowsText(g1, map[], k) == RowsText(g2, map[], k)
    ensures forall x, y :: 0 <= x < |g1| && 0 <= y < k ==> g1[x][y] == g2[x][y]
  {
    if k > 0 {
      LastRowEqual(g1, g2, k);
      RowTextInjective(g1, g2, k - 1, |g1|);
      RowsTextInjective(g1, g2, k - 1);
    }
  }

  lemma {:induction false} LineStartGrows(a: nat, b: nat, k: nat)
    requires a <= b
    ensures LineStart(a, k) <= LineStart(b, k)
  {
    if k > 0 {
      LineStartGrows(a, b, k - 1);
    }
  }

  lemma {:induction false} LineStartMonotone(n: nat, y: nat, k: nat)
    requires y < k
    ensures LineStart(n, y) + 2 * n + 1 <= LineStart(n, k)
  {
    if y < k - 1 {
      LineStartMonotone(n, y, k - 1);
    }
  }

  /** The rendering of an n-by-n board has n lines of 2n + 1 characters. */
  lemma RenderLength(g: Grid)
    requires IsGrid(g)
    ensures |Render(g)| == LineStart(|g|, |g|)
  {
    RowsTextLength(g, |g|);
  }

  /** A bigger board renders to a longer text. */
  lemma RenderLengthGrows(a: nat, b: nat)
    requires a < b
    ensures LineStart(a, a) < LineStart(b, b)
  {
    LineStartGrows(a, b, a);
    LineStartMonotone(b, a, b);
  }

  /** The rendering determines the board: different boards print differently. */
  lemma RenderInjective(g1: Grid, g2: Grid)
    requires IsGrid(g1) && IsGrid(g2)
    requires Render(g1) == Render(g2)
    ensures g1 == g2
  {
    RenderLength(g1);
    RenderLength(g2);
    if |g1| < |g2| {
      RenderLengthGrows(|g1|, |g2|);
    } else if |g2| < |g1| {
      RenderLengthGrows(|g2|, |g1|);
    }
    RowsTextInjective(g1, g2, |g1|);
    forall x | 0 <= x < |g1|
      ensures g1[x] == g2[x]
    {
      assert forall y :: 0 <= y < |g1| ==> g1[x][y] == g2[x][y];
    }
  }
}
