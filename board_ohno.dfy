/**
 * The 0h n0 board: the plain board plus the number printed on some of the
 * initially blue tiles, which says how many other blue tiles that tile must
 * see along its row and column.
 */
module OhnoBoards {
  import opened Wrappers
  import opened Tiles
  import opened Coords
  import opened Text
  import opened Grids
  import opened Rendering
  import opened Boards

  class BoardStateOhno {
    /** The tiles. */
    const board: BoardState
    /** The number on each initial tile that has one. */
    var requirements: map<Coord, int>

    /** A fresh board of the given size: no tile assigned, no requirement. */
    constructor(size: nat)
      ensures fresh(board) && fresh(board.cells)
      ensures board.size == size && board.Valid()
      ensures forall x, y :: 0 <= x < size && 0 <= y < size ==> board.cells[x, y] == None
      ensures requirements == map[]
    {
      board := new BoardState(size);
      requirements := map[];
    }

    /** Records (or replaces) the number on the tile at `c`; nothing else changes. */
    method SetTileRequirement(c: Coord, requirement: int)
      modifies this
      ensures requirements == old(requirements)[c := requirement]
    {
      requirements := requirements[c := requirement];
    }

    /** The number on the tile at `c`, None (Java `null`) if it has none. */
    function GetTileRequirement(c: Coord): (r: Option<int>)
      reads this
      ensures r.Some? <==> c in requirements
      ensures r.Some? ==> r.value == requirements[c]
    {
      if c in requirements then Some(requirements[c]) else None
    }

    /** The tiles that carry a number. */
    function GetRequirementTiles(): (cs: set<Coord>)
      reads this
      ensures forall c :: c in cs <==> c in requirements
    {
      requirements.Keys
    }

    /**
     * Like the plain board's rendering, except that a BLUE tile with a
     * number shows the number.
     */
    method ToString() returns (s: string)
      requires board.Filled()
      ensures s == OhnoRender(board.Snapshot(), requirements)
    {
      var labels := Labels(requirements);
      s := "";
      var y := 0;
      while y < board.size
        invariant 0 <= y <= board.size
        invariant s == RowsText(board.Snapshot(), labels, y)
      {
        var row := RowString(labels, y);
        s := s + row + "\n";
        y := y + 1;
      }
    }

    /** The tokens of row y, left to right. */
    method RowString(labels: map<Coord, string>, y: nat) returns (row: string)
      requires board.Filled() && y < board.size
      ensures row == RowText(board.Snapshot(), labels, y, board.size)
    {
      ghost var g := board.Snapshot();
      row := "";
      var x := 0;
      while x < board.size
        invariant 0 <= x <= board.size
        invariant row == RowText(g, labels, y, x)
      {
        var t := board.GetTileLenient(x, y).value;
        assert board.Snapshot() == g;
        assert CellText(g, labels, x, y) == Piece(t, Coord(x, y), labels);
        row := row + Piece(t, Coord(x, y), labels);
        x := x + 1;
      }
    }
  }
}
