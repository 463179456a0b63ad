/**
 * How many taps turn a tile on the device from one colour into another.
 * Tapping a tile cycles it through the game's tap order; the number of
 * taps is the forward distance from the current tile's position in that
 * order to the target's (q42/Q42Game.java `getTileTapPosition` and
 * `setTile`, ohhi/Ohhi.java `setTile`).
 */
module Taps {
  import opened Wrappers
  import opened Tiles

  /** 0h n0's tap order: GREY, then BLUE, then RED. */
  const OhnoTapOrder: seq<Tile> := [GREY, BLUE, RED]

  /** The tap order of the q42 variant of 0h h1: GREY, then RED, then BLUE. */
  const OhhiTapOrder: seq<Tile> := [GREY, RED, BLUE]

  /** Every tile value has a tap position in `order`. */
  predicate HasTapPositions(order: seq<Tile>)
  {
    forall t: Tile :: t in order
  }

  /** 0h n0's tap order holds every tile. */
  lemma OhnoTapPositions()
    ensures HasTapPositions(OhnoTapOrder)
  {
    forall t: Tile
      ensures t in OhnoTapOrder
    {
      match t
      case GREY => assert OhnoTapOrder[0] == t;
      case BLUE => assert OhnoTapOrder[1] == t;
      case RED => assert OhnoTapOrder[2] == t;
    }
  }

  /** So does the ohhi tap order. */
  lemma OhhiTapPositions()
    ensures HasTapPositions(OhhiTapOrder)
  {
    forall t: Tile
      ensures t in OhhiTapOrder
    {
      match t
      case GREY => assert OhhiTapOrder[0] == t;
      case RED => assert OhhiTapOrder[1] == t;
      case BLUE => assert OhhiTapOrder[2] == t;
    }
  }

  /** The failure `getTileTapPosition` throws for a tile (or an unassigned cell) not in the tap order. */
  datatype TapError = NoTapPosition(tile: Option<Tile>)

  /** The first position of `t` in `order`, if it occurs. */
  function FirstIndex(order: seq<Tile>, t: Tile): (r: Option<nat>)
    ensures r.Some? ==> r.value < |order| && order[r.value] == t && t !in order[..r.value]
    ensures r.None? <==> t !in order
  {
    if order == [] then None
    else if order[0] == t then Some(0)
    else
      var rest := FirstIndex(order[1..], t);
      assert order[1..][..if rest.Some? then rest.value else 0] == order[1..if rest.Some? then rest.value + 1 else 1];
      if rest.Some? then Some(rest.value + 1) else None
  }

  /**
   * `getTileTapPosition`: the index of `t` in the tap order, found by a
   * forward search; a tile that is not in the order (including the Java
   * `null` of an unassigned cell) fails.
   */
  method TapPosition(order: seq<Tile>, t: Option<Tile>) returns (r: Result<nat, TapError>)
    ensures r.Success? <==> t.Some? && t.value in order
    ensures r.Success? ==> FirstIndex(order, t.value) == Some(r.value)
    ensures r.Failure? ==> r.error == NoTapPosition(t)
  {
    var i := 0;
    while i < |order|
      invariant 0 <= i <= |order|
      invariant forall j :: 0 <= j < i ==> t != Some(order[j])
    {
      if t == Some(order[i]) {
        FirstIndexOf(order, order[i], i);
        return Success(i);
      }
      i := i + 1;
    }
    return Failure(NoTapPosition(t));
  }

  /** A position before which `t` does not occur is the first position of `t`. */
  lemma {:induction false} FirstIndexOf(order: seq<Tile>, t: Tile, i: nat)
    requires i < |order| && order[i] == t && forall j :: 0 <= j < i ==> order[j] != t
    ensures FirstIndex(order, t) == Some(i)
  {
    if i > 0 {
      FirstIndexOf(order[1..], t, i - 1);
    }
  }

  lemma ShiftedRemainder(n: int, length: int)
    requires 0 <= n < length
    ensures n % length == n && (n - length) % length == n
  {
  }

  /**
   * The tap count of `setTile`: the target's position minus the current
   * one, plus the length of the order when that is negative.
   */
  function NumTaps(from: nat, to: nat, length: nat): (n: nat)
    requires from < length && to < length
    ensures n < length
    ensures n == (to - from) % length
    ensures n == 0 <==> from == to
  {
    var taps := to - from;
    if taps < 0 then
      ShiftedRemainder(taps + length, length);
      taps + length
    else
      ShiftedRemainder(taps, length);
      taps
  }

  /** One tap on the device: the next position of the order, wrapping to the first after the last. */
  function Tap(position: nat, length: nat): (next: nat)
    requires position < length
    ensures next < length
  {
    if position + 1 == length then 0 else position + 1
  }

  /** The position reached from `position` after `k` taps. */
  function Advance(position: nat, k: nat, length: nat): (r: nat)
    requires position < length
    ensures r < length
  {
    if k == 0 then position else Tap(Advance(position, k - 1, length), length)
  }

  /** Fewer taps than one full cycle move forward by `k`, wrapping at most once. */
  lemma {:induction false} AdvanceWraps(position: nat, k: nat, length: nat)
    requires position < length && k < length
    ensures Advance(position, k, length) == if position + k < length then position + k else position + k - length
  {
    if k > 0 {
      AdvanceWraps(position, k - 1, length);
    }
  }

  /**
   * Tapping `NumTaps(from, to, length)` times from position `from` reaches
   * position `to`, and no smaller number of taps does.
   */
  lemma TapsReachTarget(from: nat, to: nat, length: nat)
    requires from < length && to < length
    ensures Advance(from, NumTaps(from, to, length), length) == to
    ensures forall k :: 0 <= k < NumTaps(from, to, length) ==> Advance(from, k, length) != to
  {
    AdvanceWraps(from, NumTaps(from, to, length), length);
    forall k | 0 <= k < NumTaps(from, to, length)
      ensures Advance(from, k, length) != to
    {
      AdvanceWraps(from, k, length);
    }
  }

  /** The tap count between two tiles of the order; zero when nothing changes. */
  function TapsBetween(order: seq<Tile>, current: Tile, target: Tile): (n: nat)
    requires current in order && target in order
    ensures n < |order|
    ensures current == target ==> n == 0
  {
    NumTaps(FirstIndex(order, current).value, FirstIndex(order, target).value, |order|)
  }

  /** Tapping that many times from the current tile's position shows the target. */
  lemma TapsBetweenReachTarget(order: seq<Tile>, current: Tile, target: Tile)
    requires current in order && target in order
    ensures order[Advance(FirstIndex(order, current).value, TapsBetween(order, current, target), |order|)] == target
  {
    TapsReachTarget(FirstIndex(order, current).value, FirstIndex(order, target).value, |order|);
  }

  /**
   * The ohhi package's tap count (ohhi/Ohhi.java `setTile`): the difference
   * of the enum ordinals, plus three when negative.
   */
  function OrdinalTaps(current: Tile, target: Tile): (n: nat)
    ensures n < 3 && n == (Ordinal(target) - Ordinal(current)) % 3
    ensures FromOrdinal(Advance(Ordinal(current), n, 3)) == target
  {
    OrdinalRoundTrip(target);
    TapsReachTarget(Ordinal(current), Ordinal(target), 3);
    NumTaps(Ordinal(current), Ordinal(target), 3)
  }

  /** The ordinal count agrees with counting positions in the tap order GREY, RED, BLUE. */
  lemma OrdinalTapsMatchOrder(current: Tile, target: Tile)
    ensures OrdinalTaps(current, target) == TapsBetween(OhhiTapOrder, current, target)
  {
    OrdinalIsTapPosition(current);
    OrdinalIsTapPosition(target);
  }

  /** The enum ordinal is the position in the tap order GREY, RED, BLUE. */
  lemma OrdinalIsTapPosition(t: Tile)
    ensures FirstIndex(OhhiTapOrder, t) == Some(Ordinal(t))
  {
    FirstIndexOf(OhhiTapOrder, t, Ordinal(t));
  }

  /** In 0h n0, GREY to BLUE is one tap, GREY to RED two, and RED to BLUE wraps round through GREY in two. */
  lemma OhnoTapExamples()
    ensures TapsBetween(OhnoTapOrder, GREY, BLUE) == 1
    ensures TapsBetween(OhnoTapOrder, GREY, RED) == 2
    ensures TapsBetween(OhnoTapOrder, RED, BLUE) == 2
  {
    FirstIndexOf(OhnoTapOrder, GREY, 0);
    FirstIndexOf(OhnoTapOrder, BLUE, 1);
    FirstIndexOf(OhnoTapOrder, RED, 2);
  }
}
