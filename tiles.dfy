/**
 * The tile values of both puzzles and the colour classifiers that turn a
 * screen pixel into a tile (q42/Tile.java, ohhi/Tile.java).
 */
module Tiles {
  import opened Wrappers

  /** Tile values, in declaration order (which is also 0h h1's tap order). */
  datatype Tile = GREY | RED | BLUE

  /** Java's `ordinal()`: the position of the value in the declaration. */
  function Ordinal(t: Tile): (r: nat)
    ensures r < 3
  {
    match t
    case GREY => 0
    case RED => 1
    case BLUE => 2
  }

  /** The tile with a given ordinal; the inverse of `Ordinal`. */
  function FromOrdinal(i: nat): (t: Tile)
    requires i < 3
    ensures Ordinal(t) == i
  {
    if i == 0 then GREY else if i == 1 then RED else BLUE
  }

  lemma {:induction false} OrdinalRoundTrip(t: Tile)
    ensures FromOrdinal(Ordinal(t)) == t
  {
    match t
    case GREY =>
    case RED =>
    case BLUE =>
  }

  /** The colour a binary-puzzle rule deduces when it excludes `t`. */
  function Opposite(t: Tile): Tile
  {
    if t == RED then BLUE else RED
  }

  /** A java.awt.Color, as its three 8-bit channels. */
  datatype Colour = Colour(red: int, green: int, blue: int)

  /** q42 classifier: a strong red channel wins, then a strong blue one. */
  function FromRgb(colour: Colour): Tile
  {
    if colour.red > 150 then RED
    else if colour.blue > 150 then BLUE
    else GREY
  }

  /** What `FromRgb` returns, stated as three equivalences. */
  lemma FromRgbClassifies(colour: Colour)
    ensures FromRgb(colour) == RED <==> colour.red > 150
    ensures FromRgb(colour) == BLUE <==> colour.red <= 150 && colour.blue > 150
    ensures FromRgb(colour) == GREY <==> colour.red <= 150 && colour.blue <= 150
  {
  }

  /** The green channel never influences the q42 classification. */
  lemma FromRgbIgnoresGreen(r: int, g1: int, g2: int, b: int)
    ensures FromRgb(Colour(r, g1, b)) == FromRgb(Colour(r, g2, b))
  {
  }

  /** The failure of indexing past the end of the pixel array. */
  datatype IndexError = ArrayIndexOutOfBounds(index: int)

  /**
   * 0h h1 classifier over a 16-bit RGBA array. Entry 0 is read first; entry 2
   * only when entry 0 is not strong; entry 1 never. A short array fails only
   * when an entry that is actually read is missing.
   */
  function FromRgba(rgba: seq<int>): (r: Result<Tile, IndexError>)
    ensures |rgba| == 0 ==> r == Failure(ArrayIndexOutOfBounds(0))
    ensures |rgba| >= 1 && rgba[0] > 60000 ==> r == Success(RED)
    ensures |rgba| >= 3 && rgba[0] <= 60000 ==> r == Success(if rgba[2] > 60000 then BLUE else GREY)
    ensures r.Failure? <==> |rgba| == 0 || (rgba[0] <= 60000 && |rgba| < 3)
  {
    if |rgba| == 0 then Failure(ArrayIndexOutOfBounds(0))
    else if rgba[0] > 60000 then Success(RED)
    else if |rgba| < 3 then Failure(ArrayIndexOutOfBounds(2))
    else if rgba[2] > 60000 then Success(BLUE)
    else Success(GREY)
  }

  /** Entry 1 (green) of the RGBA array is never consulted. */
  lemma FromRgbaIgnoresGreen(rgba: seq<int>, green: int)
    requires |rgba| >= 2
    ensures FromRgba(rgba[1 := green]) == FromRgba(rgba)
  {
  }
}
