/**
 * Dice faces and the immutable die of game_engine.DieState.
 *
 * Scoring works on one explicit parameter type, the ordered sequence of
 * die faces; a roll never draws randomness itself but takes the freshly
 * rolled faces from its caller.
 */
module Dice {

  const NumDice: nat := 5

  predicate IsFace(v: int) {
    1 <= v <= 6
  }

  /** Every entry is a face 1..6. */
  predicate AllFaces(s: seq<int>) {
    forall i :: 0 <= i < |s| ==> IsFace(s[i])
  }

  /** A complete roll: exactly five faces 1..6. */
  predicate ValidFaces(s: seq<int>) {
    |s| == NumDice && AllFaces(s)
  }

  /** How many dice show `v` (`Counter(values)[v]`). */
  function Count(s: seq<int>, v: int): nat {
    multiset(s)[v]
  }

  function Sum(s: seq<int>): int {
    if |s| == 0 then 0 else s[0] + Sum(s[1..])
  }

  /** The sum of a roll computed from its face counts alone. */
  function FaceWeighted(s: seq<int>): int {
    Count(s, 1) + 2 * Count(s, 2) + 3 * Count(s, 3)
    + 4 * Count(s, 4) + 5 * Count(s, 5) + 6 * Count(s, 6)
  }

  function FaceTotal(s: seq<int>): int {
    Count(s, 1) + Count(s, 2) + Count(s, 3) + Count(s, 4) + Count(s, 5) + Count(s, 6)
  }

  /** The sum of faces is determined by the face counts, and the six counts
      account for every die. */
  lemma {:induction false} SumByFaces(s: seq<int>)
    requires AllFaces(s)
    ensures Sum(s) == FaceWeighted(s)
    ensures FaceTotal(s) == |s|
  {
    if |s| > 0 {
      CountFirst(s);
      SumByFaces(s[1..]);
    }
  }

  /** The first die adds one to the count of its own face only. */
  lemma CountFirst(s: seq<int>)
    requires |s| > 0
    ensures forall v :: Count(s, v) == Count(s[1..], v) + (if v == s[0] then 1 else 0)
  {
    assert s == [s[0]] + s[1..];
    assert multiset(s) == multiset{s[0]} + multiset(s[1..]);
  }

  /** Reordering the dice does not change their sum. */
  lemma SumPermutation(s: seq<int>, t: seq<int>)
    requires AllFaces(s) && multiset(s) == multiset(t)
    ensures AllFaces(t)
    ensures Sum(s) == Sum(t)
  {
    forall i | 0 <= i < |t| ensures IsFace(t[i]) {
      assert t[i] in multiset(t);
      assert t[i] in multiset(s);
    }
    SumByFaces(s);
    SumByFaces(t);
  }

  /** Bounds of a five-dice sum: 5 (all ones) to 30 (all sixes). */
  lemma {:induction false} SumBounds(s: seq<int>)
    requires AllFaces(s)
    ensures |s| <= Sum(s) <= 6 * |s|
  {
    if |s| > 0 {
      SumBounds(s[1..]);
    }
  }

  /** Dice that all show `v` sum to `v` per die. */
  lemma {:induction false} SumOfEqual(s: seq<int>, v: int)
    requires forall i :: 0 <= i < |s| ==> s[i] == v
    ensures Sum(s) == |s| * v
  {
    if |s| > 0 {
      SumOfEqual(s[1..], v);
    }
  }

  /** One die: a face and whether it is held. */
  datatype Die = Die(value: int, held: bool)

  /** Face values of a tuple of dice, in order. */
  function Values(dice: seq<Die>): (vs: seq<int>)
    ensures |vs| == |dice|
    ensures forall i :: 0 <= i < |dice| ==> vs[i] == dice[i].value
  {
    if |dice| == 0 then [] else [dice[0].value] + Values(dice[1..])
  }

  predicate ValidDice(dice: seq<Die>) {
    |dice| == NumDice && forall i :: 0 <= i < |dice| ==> IsFace(dice[i].value)
  }

  /** `DieState.roll`: a held die is returned unchanged, an unheld die takes
      the freshly rolled `face` and stays unheld. */
  function RollDie(d: Die, face: int): (r: Die)
    ensures d.held ==> r == d
    ensures !d.held ==> r.value == face && !r.held
  {
    if d.held then d else d.(value := face)
  }

  /** `DieState.toggle_held`: flips the hold flag, keeps the face. */
  function ToggleDie(d: Die): (r: Die)
    ensures r.value == d.value && r.held == !d.held
  {
    d.(held := !d.held)
  }

  lemma ToggleDieInvolution(d: Die)
    ensures ToggleDie(ToggleDie(d)) == d
  {
  }
}
