/**
 * Value snapshots of a square board and the operations on them that the
 * rules and the solver are specified with.
 */
module Grids {
  import opened Tiles
  import opened Coords

  /** A snapshot of a board: g[x][y] is the tile in column x, row y. */
  type Grid = seq<seq<Tile>>

  /** The snapshot is square: |g| columns of |g| tiles. */
  predicate IsGrid(g: Grid)
  {
    forall x :: 0 <= x < |g| ==> |g[x]| == |g|
  }

  /** `isWithinBounds`: both coordinates in [0, n). */
  predicate InBounds(n: int, c: Coord)
  {
    0 <= c.x < n && 0 <= c.y < n
  }

  /** The strict accessor: the stored tile of an in-bounds coordinate. */
  function At(g: Grid, c: Coord): Tile
    requires IsGrid(g) && InBounds(|g|, c)
  {
    g[c.x][c.y]
  }

  /** The lenient accessor: GREY outside the board, the stored tile inside. */
  function Lenient(g: Grid, x: int, y: int): (t: Tile)
    requires IsGrid(g)
  {
    if InBounds(|g|, Coord(x, y)) then g[x][y] else GREY
  }

  lemma LenientSpec(g: Grid, x: int, y: int)
    requires IsGrid(g)
    ensures !InBounds(|g|, Coord(x, y)) ==> Lenient(g, x, y) == GREY
    ensures InBounds(|g|, Coord(x, y)) ==> Lenient(g, x, y) == At(g, Coord(x, y))
  {
  }

  /** Every coordinate of an n-by-n board. */
  function AllCoords(n: nat): (cs: set<Coord>)
    ensures forall c :: c in cs <==> InBounds(n, c)
  {
    set x, y | 0 <= x < n && 0 <= y < n :: Coord(x, y)
  }

  /** The snapshot after storing `t` at `c`. */
  function Set(g: Grid, c: Coord, t: Tile): (r: Grid)
    requires IsGrid(g) && InBounds(|g|, c)
    ensures IsGrid(r) && |r| == |g|
    ensures At(r, c) == t
    ensures forall o :: InBounds(|g|, o) && o != c ==> At(r, o) == At(g, o)
  {
    g[c.x := g[c.x][c.y := t]]
  }

  /** Two snapshots of one size with the same tile everywhere are the same snapshot. */
  lemma SameTiles(a: Grid, b: Grid)
    requires IsGrid(a) && IsGrid(b) && |a| == |b|
    requires forall c :: InBounds(|a|, c) ==> At(a, c) == At(b, c)
    ensures a == b
  {
    forall x | 0 <= x < |a|
      ensures a[x] == b[x]
    {
      forall y | 0 <= y < |a|
        ensures a[x][y] == b[x][y]
      {
        assert At(a, Coord(x, y)) == At(b, Coord(x, y));
      }
    }
  }

  /** Every key of `actions` is a cell of the board. */
  predicate KeysInBounds(n: int, actions: map<Coord, Tile>)
  {
    forall c :: c in actions ==> InBounds(n, c)
  }

  /** The snapshot after committing every (coordinate, tile) pair of `actions`. */
  function ApplyActions(g: Grid, actions: map<Coord, Tile>): (r: Grid)
    requires IsGrid(g)
    ensures IsGrid(r) && |r| == |g|
    ensures forall c :: InBounds(|g|, c) ==> At(r, c) == if c in actions then actions[c] else At(g, c)
  {
    seq(|g|, x requires 0 <= x < |g| =>
      seq(|g|, y requires 0 <= y < |g| =>
        if Coord(x, y) in actions then actions[Coord(x, y)] else g[x][y]))
  }

  /** Committing nothing leaves the snapshot as it was. */
  lemma ApplyNothing(g: Grid)
    requires IsGrid(g)
    ensures ApplyActions(g, map[]) == g
  {
    var r := ApplyActions(g, map[]);
    forall x | 0 <= x < |g|
      ensures r[x] == g[x]
    {
      assert forall y :: 0 <= y < |g| ==> At(r, Coord(x, y)) == At(g, Coord(x, y));
    }
  }

  /** Committing one more action is storing its tile after the others. */
  lemma ApplyUpdate(g: Grid, actions: map<Coord, Tile>, c: Coord, t: Tile)
    requires IsGrid(g) && InBounds(|g|, c)
    ensures ApplyActions(g, actions[c := t]) == Set(ApplyActions(g, actions), c, t)
  {
    var left, right := ApplyActions(g, actions[c := t]), Set(ApplyActions(g, actions), c, t);
    forall x | 0 <= x < |g|
      ensures left[x] == right[x]
    {
      assert forall y :: 0 <= y < |g| ==> At(left, Coord(x, y)) == At(right, Coord(x, y));
    }
  }

  // ---------------------------------------------------------------------
  // Action maps

  /** The action map that sends every target to the same tile. */
  function Uniform(targets: set<Coord>, t: Tile): map<Coord, Tile>
  {
    map p | p in targets :: t
  }

  /** Proposing `t` once more at `e` proposes `t` on one more target. */
  lemma UniformAdd(actions: map<Coord, Tile>, targets: set<Coord>, t: Tile, e: Coord)
    ensures (actions + Uniform(targets, t))[e := t] == actions + Uniform(targets + {e}, t)
  {
    var u := Uniform(targets + {e}, t);
    assert (actions + Uniform(targets, t))[e := t].Keys == (actions + u).Keys;
  }

  /** Proposals of one colour on two target sets merge into one. */
  lemma UniformUnion(a: set<Coord>, b: set<Coord>, t: Tile)
    ensures Uniform(a, t) + Uniform(b, t) == Uniform(a + b, t)
  {
  }

  /** The same, on top of earlier proposals. */
  lemma UniformMerge(actions: map<Coord, Tile>, a: set<Coord>, b: set<Coord>, t: Tile)
    ensures actions + Uniform(a, t) + Uniform(b, t) == actions + Uniform(a + b, t)
  {
    var left := actions + Uniform(a, t) + Uniform(b, t);
    var right := actions + Uniform(a + b, t);
    assert left.Keys == right.Keys;
  }

  /** Adding proposals in two batches adds their union. */
  lemma UnionAssoc(a: map<Coord, Tile>, b: map<Coord, Tile>, c: map<Coord, Tile>)
    ensures a + b + c == a + (b + c)
  {
  }

  /** Adding no proposals changes nothing. */
  lemma UnionEmpty(a: map<Coord, Tile>)
    ensures map[] + a == a && a + map[] == a
  {
  }

  // ---------------------------------------------------------------------
  // Progress measure

  /** Two for an unknown tile, one for RED, none for BLUE. */
  function Weight(t: Tile): nat
  {
    match t
    case GREY => 2
    case RED => 1
    case BLUE => 0
  }

  /** A committed deduction makes progress: it fills a GREY tile or turns RED into BLUE. */
  predicate Progresses(from: Tile, to: Tile)
  {
    Weight(to) < Weight(from)
  }

  /** Every action names a tile of the board and makes progress on it. */
  predicate Progressing(g: Grid, actions: map<Coord, Tile>)
    requires IsGrid(g)
  {
    forall p :: p in actions ==> InBounds(|g|, p) && Progresses(At(g, p), actions[p])
  }

  function ColumnWeight(s: seq<Tile>): nat
  {
    if s == [] then 0 else ColumnWeight(s[..|s| - 1]) + Weight(s[|s| - 1])
  }

  /** The progress measure of a snapshot: twice the unknown tiles plus the RED ones. */
  function GridWeight(g: Grid): nat
  {
    if g == [] then 0 else GridWeight(g[..|g| - 1]) + ColumnWeight(g[|g| - 1])
  }

  lemma {:induction false} ColumnWeightUpdate(s: seq<Tile>, i: nat, t: Tile)
    requires i < |s|
    ensures ColumnWeight(s[i := t]) + Weight(s[i]) == ColumnWeight(s) + Weight(t)
  {
    var s' := s[i := t];
    if i == |s| - 1 {
      assert s'[..|s'| - 1] == s[..|s| - 1];
    } else {
      assert s'[..|s'| - 1] == s[..|s| - 1][i := t];
      ColumnWeightUpdate(s[..|s| - 1], i, t);
    }
  }

  lemma {:induction false} GridWeightUpdate(g: Grid, x: nat, col: seq<Tile>)
    requires x < |g|
    ensures GridWeight(g[x := col]) + ColumnWeight(g[x]) == GridWeight(g) + ColumnWeight(col)
  {
    var g' := g[x := col];
    if x == |g| - 1 {
      assert g'[..|g'| - 1] == g[..|g| - 1];
    } else {
      assert g'[..|g'| - 1] == g[..|g| - 1][x := col];
      GridWeightUpdate(g[..|g| - 1], x, col);
    }
  }

  /** Storing a tile changes the measure by the difference of the two weights. */
  lemma SetWeight(g: Grid, c: Coord, t: Tile)
    requires IsGrid(g) && InBounds(|g|, c)
    ensures GridWeight(Set(g, c, t)) + Weight(At(g, c)) == GridWeight(g) + Weight(t)
  {
    ColumnWeightUpdate(g[c.x], c.y, t);
    GridWeightUpdate(g, c.x, g[c.x][c.y := t]);
  }

  /** `g1` arises from `g0` by progress only: no tile ever becomes GREY again, BLUE stays BLUE. */
  ghost predicate Monotone(g0: Grid, g1: Grid)
    requires IsGrid(g0) && IsGrid(g1) && |g0| == |g1|
  {
    forall c :: InBounds(|g0|, c) ==> Weight(At(g1, c)) <= Weight(At(g0, c))
  }

  /** `g1` only fills unknown tiles of `g0`: every known tile keeps its colour. */
  ghost predicate Refines(g0: Grid, g1: Grid)
    requires IsGrid(g0) && IsGrid(g1) && |g0| == |g1|
  {
    forall c :: InBounds(|g0|, c) && At(g0, c) != GREY ==> At(g1, c) == At(g0, c)
  }

  /** No tile of `s` is unknown. */
  ghost predicate Complete(s: Grid)
    requires IsGrid(s)
  {
    forall p :: InBounds(|s|, p) ==> At(s, p) != GREY
  }
}
