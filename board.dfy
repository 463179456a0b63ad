/**
 * The board of a puzzle: a square of tiles, each unassigned (Java `null`)
 * until the screen reader or a rule stores a colour in it. Both games use
 * this same board (their two `BoardState` classes are identical up to the
 * bounds helper).
 */
module Boards {
  import opened Wrappers
  import opened Tiles
  import opened Coords
  import opened Grids
  import opened Rendering

  class BoardState {
    /** The size (width and height) of the square board. */
    const size: nat
    /** cells[x, y] is the tile in column x, row y; None until assigned. */
    const cells: array2<Option<Tile>>

    predicate Valid()
      reads this
    {
      cells.Length0 == size && cells.Length1 == size
    }

    /** Every cell of the board holds a tile. */
    predicate Filled()
      reads this, cells
    {
      Valid() && forall x, y :: 0 <= x < size && 0 <= y < size ==> cells[x, y].Some?
    }

    /** The board's tiles as a value. */
    function Snapshot(): (g: Grid)
      requires Filled()
      reads this, cells
      ensures IsGrid(g) && |g| == size
    {
      seq(size, x requires 0 <= x < size && Filled() reads this, cells =>
        seq(size, y requires 0 <= y < size && Filled() reads this, cells => cells[x, y].value))
    }

    /** A fresh board of the given size: no cell is assigned yet. */
    constructor(size: nat)
      ensures this.size == size && Valid() && fresh(cells)
      ensures forall x, y :: 0 <= x < size && 0 <= y < size ==> cells[x, y] == None
    {
      this.size := size;
      cells := new Option<Tile>[size, size]((x, y) => None);
    }

    /** Stores a tile at an in-bounds coordinate; no other cell changes. */
    method SetTile(c: Coord, t: Tile)
      requires Valid() && InBounds(size, c)
      modifies cells
      ensures cells[c.x, c.y] == Some(t)
      ensures forall x, y :: 0 <= x < size && 0 <= y < size && (x, y) != (c.x, c.y) ==>
        cells[x, y] == old(cells[x, y])
      ensures old(Filled()) ==> Filled() && Snapshot() == Set(old(Snapshot()), c, t)
    {
      cells[c.x, c.y] := Some(t);
      if old(Filled()) {
        assert Filled();
        var g := Set(old(Snapshot()), c, t);
        forall x | 0 <= x < size
          ensures Snapshot()[x] == g[x]
        {
          assert forall y :: 0 <= y < size ==> Snapshot()[x][y] == At(g, Coord(x, y));
        }
      }
    }

    /**
     * The strict accessor: the stored tile (None if unassigned) of an
     * in-bounds coordinate, and the array's index exception otherwise, on
     * the column index first.
     */
    function GetTile(c: Coord): (r: Result<Option<Tile>, IndexError>)
      requires Valid()
      reads this, cells
      ensures r.Success? <==> InBounds(size, c)
      ensures r.Success? ==> r.value == cells[c.x, c.y]
      ensures r.Success? && Filled() ==> r.value == Some(At(Snapshot(), c))
      ensures !(0 <= c.x < size) ==> r == Failure(ArrayIndexOutOfBounds(c.x))
      ensures 0 <= c.x < size && !(0 <= c.y < size) ==> r == Failure(ArrayIndexOutOfBounds(c.y))
    {
      if !(0 <= c.x < size) then Failure(ArrayIndexOutOfBounds(c.x))
      else if !(0 <= c.y < size) then Failure(ArrayIndexOutOfBounds(c.y))
      else Success(cells[c.x, c.y])
    }

    /** The lenient accessor: GREY for a coordinate outside the board. */
    function GetTileLenient(x: int, y: int): (t: Option<Tile>)
      requires Valid()
      reads this, cells
      ensures !InBounds(size, Coord(x, y)) ==> t == Some(GREY)
      ensures InBounds(size, Coord(x, y)) ==> t == cells[x, y]
      ensures Filled() ==> t == Some(Lenient(Snapshot(), x, y))
    {
      if IsWithinBounds(x, y) then cells[x, y] else Some(GREY)
    }

    /** Both coordinates lie in [0, size). */
    predicate IsWithinBounds(x: int, y: int)
      reads this
      ensures IsWithinBounds(x, y) <==> InBounds(size, Coord(x, y))
    {
      x >= 0 && y >= 0 && x < size && y < size
    }

    /** The coordinate overload of `IsWithinBounds`. */
    predicate IsCoordWithinBounds(c: Coord)
      reads this
      ensures IsCoordWithinBounds(c) <==> InBounds(size, c)
    {
      IsWithinBounds(c.x, c.y)
    }

    /**
     * The rows of the board top to bottom, one two-character token per tile
     * and a line break after each row.
     */
    method ToString() returns (s: string)
      requires Filled()
      ensures s == Render(Snapshot())
    {
      ghost var g := Snapshot();
      s := "";
      var y := 0;
      while y < size
        invariant 0 <= y <= size
        invariant s == RowsText(g, map[], y)
      {
        var row := "";
        var x := 0;
        while x < size
          invariant 0 <= x <= size
          invariant row == RowText(g, map[], y, x)
        {
          var t := cells[x, y].value;
          assert t == At(g, Coord(x, y));
          row := row + Token(t);
          x := x + 1;
        }
        s := s + row + "\n";
        y := y + 1;
      }
    }
  }
}
