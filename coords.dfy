/**
 * Board coordinates and the four orthogonal directions
 * (q42/BoardCoord.java, ohhi/BoardCoord.java).
 */
module Coords {
  import opened Wrappers
  import Text

  /** The four orthogonal directions, in the order `Direction.values()` yields them. */
  datatype Direction = NORTH | EAST | SOUTH | WEST

  const Directions: seq<Direction> := [NORTH, EAST, SOUTH, WEST]

  lemma DirectionsComplete(d: Direction)
    ensures d in Directions
  {
  }

  /** A board coordinate, compared by value. */
  datatype Coord = Coord(x: int, y: int)

  /** The three-argument constructor: `flipped` swaps the two axes. */
  function Flipped(x: int, y: int, flipped: bool): (c: Coord)
  {
    if !flipped then Coord(x, y) else Coord(y, x)
  }


  /** Flipping the flipped coordinate back yields the original one. */
  lemma FlipTwice(x: int, y: int, flipped: bool)
    ensures var c := Flipped(x, y, flipped); Flipped(c.x, c.y, flipped) == Coord(x, y)
  {
  }

  /** `move`: NORTH decreases y, EAST increases x, SOUTH increases y, WEST decreases x. */
  function Move(c: Coord, d: Direction, distance: int): Coord
  {
    match d
    case NORTH => Coord(c.x, c.y - distance)
    case EAST => Coord(c.x + distance, c.y)
    case SOUTH => Coord(c.x, c.y + distance)
    case WEST => Coord(c.x - distance, c.y)
  }


  /** The direction pointing the other way. */
  function Reverse(d: Direction): Direction
  {
    match d
    case NORTH => SOUTH
    case EAST => WEST
    case SOUTH => NORTH
    case WEST => EAST
  }

  /**
   * Moving a distance one way is moving its negation the opposite way, and
   * moving back the same distance returns to the start.
   */
  lemma MoveReverse(c: Coord, d: Direction, k: int)
    ensures Move(c, d, k) == Move(c, Reverse(d), -k)
    ensures Move(Move(c, d, k), Reverse(d), k) == c
    ensures Reverse(d) != d && Reverse(Reverse(d)) == d
  {
  }

  /** The direction a move turns into once the axes are swapped. */
  function Transposed(d: Direction): Direction
  {
    match d
    case NORTH => WEST
    case EAST => SOUTH
    case SOUTH => EAST
    case WEST => NORTH
  }

  /**
   * Swapping the axes turns rows into columns: a move along one axis of the
   * unflipped board is a move by the same distance along the other axis of
   * the flipped one, and an unflipped coordinate keeps its axes.
   */
  lemma FlipTransposesMoves(x: int, y: int, d: Direction, k: int)
    ensures var c := Move(Coord(x, y), d, k);
      Flipped(c.x, c.y, true) == Move(Flipped(x, y, true), Transposed(d), k)
    ensures var c := Move(Coord(x, y), d, k);
      Flipped(c.x, c.y, false) == Move(Flipped(x, y, false), d, k)
  {
  }

  /** Moving zero steps stays put, and moves along one direction add up. */
  lemma MoveAdditive(c: Coord, d: Direction, a: int, b: int)
    ensures Move(c, d, 0) == c
    ensures Move(Move(c, d, a), d, b) == Move(c, d, a + b)
  {
  }

  /** Distinct distances along one direction reach distinct coordinates. */
  lemma MoveInjective(c: Coord, d: Direction, a: int, b: int)
    requires Move(c, d, a) == Move(c, d, b)
    ensures a == b
  {
  }

  /** Positive moves in two different directions never meet. */
  lemma MoveDisjoint(c: Coord, d1: Direction, d2: Direction, a: int, b: int)
    requires d1 != d2 && a > 0 && b > 0
    ensures Move(c, d1, a) != Move(c, d2, b)
  {
  }

  /** `getDirection`: the direction from `c` towards `other`, or null. */
  function GetDirection(c: Coord, other: Coord): Option<Direction>
  {
    if other.x == c.x && other.y < c.y then Some(NORTH)
    else if other.x == c.x && other.y > c.y then Some(SOUTH)
    else if other.y == c.y && other.x < c.x then Some(WEST)
    else if other.y == c.y && other.x > c.x then Some(EAST)
    else None
  }

  /** `getDirection` is null exactly for the same coordinate or one off both lines. */
  lemma GetDirectionNone(c: Coord, other: Coord)
    ensures GetDirection(c, other) == None <==> other == c || (other.x != c.x && other.y != c.y)
  {
  }

  /** Moving k > 0 steps in `d` lands in direction `d`, and that is the only way to be in direction `d`. */
  lemma GetDirectionOfMove(c: Coord, d: Direction, k: int)
    requires k > 0
    ensures GetDirection(c, Move(c, d, k)) == Some(d)
  {
  }

  lemma GetDirectionSome(c: Coord, other: Coord, d: Direction)
    requires GetDirection(c, other) == Some(d)
    ensures other == Move(c, d, GetDistance(c, other)) && GetDistance(c, other) > 0
  {
  }

  function Abs(i: int): nat
  {
    if i < 0 then -i else i
  }

  /** `getDistance`: the Manhattan distance. */
  function GetDistance(c: Coord, other: Coord): nat
  {
    Abs(c.x - other.x) + Abs(c.y - other.y)
  }

  /** The Manhattan distance is symmetric, zero only on the same coordinate, and k along a move of k. */
  lemma GetDistanceSpec(c: Coord, other: Coord, d: Direction, k: nat)
    ensures GetDistance(c, other) == GetDistance(other, c)
    ensures GetDistance(c, other) == 0 <==> c == other
    ensures GetDistance(c, Move(c, d, k)) == k
  {
  }

  /**
   * `equals(Object)`: `obj` is None when the other object is not a
   * BoardCoord (or is null), otherwise the coordinate it wraps.
   */
  function Equals(c: Coord, obj: Option<Coord>): bool
  {
    obj.Some? && c.x == obj.value.x && c.y == obj.value.y
  }

  const TWO_32: int := 0x1_0000_0000

  /** Java's 32-bit two's-complement wrap-around of an int expression. */
  function Wrap32(i: int): (r: int)
    ensures -0x8000_0000 <= r < 0x8000_0000
    ensures (r - i) % TWO_32 == 0
  {
    var m := i % TWO_32;
    if m >= 0x8000_0000 then m - TWO_32 else m
  }

  /** `hashCode`: x + 31 * y in int arithmetic. */
  function HashCode(c: Coord): int
  {
    Wrap32(c.x + c.y * 31)
  }

  /** `equals` compares by value and agrees with `hashCode`. */
  lemma EqualsSpec(c: Coord, other: Coord)
    ensures Equals(c, Some(other)) <==> c == other
    ensures !Equals(c, None)
    ensures Equals(c, Some(other)) ==> HashCode(c) == HashCode(other)
  {
  }

  /** On a board of at most 31 columns the hash tells cells apart. */
  lemma HashCodeInjectiveOnBoard(a: Coord, b: Coord)
    requires 0 <= a.x < 31 && 0 <= b.x < 31
    requires 0 <= a.y < 0x100_0000 && 0 <= b.y < 0x100_0000
    requires HashCode(a) == HashCode(b)
    ensures a == b
  {
    assert HashCode(a) == a.x + a.y * 31;
    assert HashCode(b) == b.x + b.y * 31;
  }

  /** `toString`: "(x, y)". */
  function ToString(c: Coord): string
  {
    "(" + Text.IntToString(c.x) + ", " + Text.IntToString(c.y) + ")"
  }

  /** The x component ends at the first comma, so it can be read back. */
  lemma SplitAtComma(sa: string, ta: string, sb: string, tb: string)
    requires forall k :: 0 <= k < |sa| ==> sa[k] != ','
    requires forall k :: 0 <= k < |sb| ==> sb[k] != ','
    requires "(" + sa + ", " + ta + ")" == "(" + sb + ", " + tb + ")"
    ensures sa == sb && ta == tb
  {
    var s := "(" + sa + ", " + ta + ")";
    var s' := "(" + sb + ", " + tb + ")";
    var k := if |sa| < |sb| then |sa| else |sb|;
    assert s[1 + k] == s'[1 + k];
    assert |sa| == |sb|;
    assert sa == s[1..1 + |sa|];
    assert sb == s'[1..1 + |sb|];
    assert ta == s[3 + |sa|..|s| - 1];
    assert tb == s'[3 + |sb|..|s'| - 1];
  }

  /** Distinct coordinates print differently. */
  lemma ToStringInjective(a: Coord, b: Coord)
    requires ToString(a) == ToString(b)
    ensures a == b
  {
    var sa, ta := Text.IntToString(a.x), Text.IntToString(a.y);
    var sb, tb := Text.IntToString(b.x), Text.IntToString(b.y);
    Text.IntToStringChars(a.x);
    Text.IntToStringChars(b.x);
    SplitAtComma(sa, ta, sb, tb);
    Text.IntToStringInjective(a.x, b.x);
    Text.IntToStringInjective(a.y, b.y);
  }
}
